/** The point of an annotation, typed as field=value entries between commas. */
module PointEntries {
  import opened Text
  import opened Splitting
  import opened Sequences

  /** One comma part after the entries collected so far. */
  function Collect(point: seq<string>, part: string): seq<string> {
    if TrimSpace(part) == "" then point
    else if '=' in part || point == [] then point + [TrimSpace(part)]
    else point[..|point| - 1] + [point[|point| - 1] + "," + TrimRight(part, ' ')]
  }

  function Collected(parts: seq<string>): seq<string> {
    if parts == [] then [] else Collect(Collected(parts[..|parts| - 1]), parts[|parts| - 1])
  }

  method SplitPointEntries(value: string) returns (point: seq<string>)
    ensures point == Entries(value)
  {
    point := [];
    var parts := Split(value, ',');
    for n := 0 to |parts|
      invariant point == Collected(parts[..n])
    {
      var part := parts[n];
      assert parts[..n + 1][..n] == parts[..n];
      if TrimSpace(part) == "" {
      } else if '=' in part || |point| == 0 {
        point := point + [TrimSpace(part)];
      } else {
        var e := point[|point| - 1] + "," + TrimRight(part, ' ');
        LastUpdated(point, e);
        point := point[|point| - 1 := e];
      }
    }
    assert parts[..|parts|] == parts;
  }

  function Entries(value: string): seq<string> {
    Collected(Split(value, ','))
  }

  // ------------------------------------------------------------- round trip

  /** A comma part that begins an entry. */
  predicate Begins(part: string, first: bool) {
    TrimSpace(part) == part != "" && ('=' in part || first)
  }

  /** A comma part that goes on with the value before it. */
  predicate Continues(part: string) {
    TrimSpace(part) != "" && '=' !in part && TrimRight(part, ' ') == part
  }

  predicate EntryOk(entry: string, first: bool) {
    var parts := Split(entry, ',');
    Begins(parts[0], first) && forall k | 0 < k < |parts| :: Continues(parts[k])
  }

  predicate WellFormed(es: seq<string>) {
    forall i | 0 <= i < |es| :: EntryOk(es[i], i == 0)
  }

  /** The comma parts of an entry after those of others add just that entry. */
  lemma {:induction false} CollectsEntry(before: seq<string>, parts: seq<string>)
    requires parts != [] && Begins(parts[0], Collected(before) == [])
    requires forall k | 0 < k < |parts| :: Continues(parts[k])
    ensures Collected(before + parts) == Collected(before) + [Join(parts, ",")]
  {
    var n := |parts| - 1;
    assert (before + parts)[..|before + parts| - 1] == before + parts[..n];
    if n == 0 {
      assert before + parts[..n] == before;
    } else {
      CollectsEntry(before, parts[..n]);
      JoinSnoc(parts);
      assert Continues(parts[n]);
    }
  }

  lemma {:induction false} JoinSnoc(parts: seq<string>)
    requires |parts| > 1
    ensures Join(parts, ",") == Join(parts[..|parts| - 1], ",") + "," + parts[|parts| - 1]
  {
    if |parts| > 2 {
      JoinSnoc(parts[1..]);
      assert parts[1..][..|parts| - 2] == parts[..|parts| - 1][1..];
    }
  }

  lemma {:induction false} JoinOfSplit(s: string)
    ensures Join(Split(s, ','), ",") == s
  {
    if s != "" {
      JoinOfSplit(s[1..]);
      var r := Split(s[1..], ',');
      if s[0] == ',' {
        assert Split(s, ',')[1..] == r;
      } else {
        assert Split(s, ',')[1..] == r[1..];
      }
    }
  }

  lemma SplitSnoc(es: seq<string>)
    requires |es| > 1
    ensures Split(Join(es, ","), ',') == Split(Join(es[..|es| - 1], ","), ',') + Split(es[|es| - 1], ',')
  {
    JoinSnoc(es);
    SplitOfJoined(',', Join(es[..|es| - 1], ","), es[|es| - 1]);
  }

  lemma {:induction false} WellFormedReturns(es: seq<string>)
    requires WellFormed(es)
    ensures Entries(Join(es, ",")) == es
  {
    if es != [] {
      var init, e := es[..|es| - 1], es[|es| - 1];
      assert WellFormed(init) && EntryOk(e, init == []);
      WellFormedReturns(init);
      AddsEntry(init, e);
      InitAndLast(es);
    }
  }

  /** The comma parts of a list of entries; an empty list has none. */
  function PartsOf(es: seq<string>): seq<string> {
    if es == [] then [] else Split(Join(es, ","), ',')
  }

  lemma PartsSnoc(es: seq<string>, e: string)
    ensures PartsOf(es + [e]) == PartsOf(es) + Split(e, ',')
  {
    if es == [] {
      assert PartsOf(es) + Split(e, ',') == Split(e, ',');
    } else {
      assert (es + [e])[..|es|] == es;
      SplitSnoc(es + [e]);
    }
  }

  lemma AddsEntry(es: seq<string>, e: string)
    requires Entries(Join(es, ",")) == es && EntryOk(e, es == [])
    ensures Entries(Join(es + [e], ",")) == es + [e]
  {
    PartsSnoc(es, e);
    var before := PartsOf(es);
    CollectsEntry(before, Split(e, ','));
    JoinOfSplit(e);
  }

  lemma TrimmedContinues(part: string)
    requires TrimSpace(part) != "" && '=' !in part
    ensures Continues(TrimRight(part, ' '))
  {
    var t := TrimRight(part, ' ');
    assert forall i | |t| <= i < |part| :: IsSpace(part[i]);
    assert Blank(t) ==> Blank(part);
  }

  lemma WellFormedSnoc(point: seq<string>, e: string)
    requires WellFormed(point) && EntryOk(e, point == [])
    ensures WellFormed(point + [e])
  {
  }

  /** An entry takes up a part without "=". */
  lemma EntryGrows(e: string, first: bool, part: string)
    requires EntryOk(e, first) && TrimSpace(part) != "" && '=' !in part && ',' !in part
    ensures EntryOk(e + "," + TrimRight(part, ' '), first)
  {
    var t := TrimRight(part, ' ');
    TrimmedContinues(part);
    SplitOfJoined(',', e, t);
    SplitWhole(',', t);
  }

  /** A part with "=", or the first one, opens an entry. */
  lemma EntryOpens(part: string, first: bool)
    requires TrimSpace(part) != "" && ',' !in part && ('=' in part || first)
    ensures EntryOk(TrimSpace(part), first)
  {
    TrimSpaceKeeps(part, '=');
    TrimSpaceKeeps(part, ',');
    SplitWhole(',', TrimSpace(part));
  }

  lemma OpeningKeepsWellFormed(point: seq<string>, part: string)
    requires WellFormed(point) && TrimSpace(part) != "" && ',' !in part && ('=' in part || point == [])
    ensures WellFormed(point + [TrimSpace(part)])
  {
    EntryOpens(part, point == []);
    WellFormedSnoc(point, TrimSpace(part));
  }

  lemma GrowingKeepsWellFormed(point: seq<string>, part: string)
    requires WellFormed(point) && point != [] && TrimSpace(part) != "" && ',' !in part && '=' !in part
    ensures WellFormed(point[..|point| - 1] + [point[|point| - 1] + "," + TrimRight(part, ' ')])
  {
    var n := |point| - 1;
    assert EntryOk(point[n], n == 0);
    EntryGrows(point[n], n == 0, part);
    WellFormedSnoc(point[..n], point[n] + "," + TrimRight(part, ' '));
  }

  lemma CollectKeepsWellFormed(point: seq<string>, part: string)
    requires WellFormed(point) && ',' !in part
    ensures WellFormed(Collect(point, part))
  {
    if TrimSpace(part) == "" {
    } else if '=' in part || point == [] {
      OpeningKeepsWellFormed(point, part);
    } else {
      GrowingKeepsWellFormed(point, part);
    }
  }

  lemma {:induction false} CollectedIsWellFormed(parts: seq<string>)
    requires Free(',', parts)
    ensures WellFormed(Collected(parts))
  {
    if parts != [] {
      CollectedIsWellFormed(parts[..|parts| - 1]);
      CollectKeepsWellFormed(Collected(parts[..|parts| - 1]), parts[|parts| - 1]);
    }
  }

  /** Splitting the comma join of a list returns the list exactly if its entries are well formed: the first comma part
      of each is trimmed, not blank and holds "=" (or opens the list), and the later ones are not blank, have no "="
      and do not end in a space. */
  lemma RoundTrip(es: seq<string>)
    ensures Entries(Join(es, ",")) == es <==> WellFormed(es)
  {
    CollectedIsWellFormed(Split(Join(es, ","), ','));
    if WellFormed(es) { WellFormedReturns(es); }
  }

  /** Splitting is settled after one pass. */
  lemma SplitTwice(value: string)
    ensures WellFormed(Entries(value)) && Entries(Join(Entries(value), ",")) == Entries(value)
  {
    CollectedIsWellFormed(Split(value, ','));
    WellFormedReturns(Entries(value));
  }

  /** The parts that are not blank, without the space around them. */
  function Bare(parts: seq<string>): seq<string> {
    if parts == [] then []
    else
      var part := TrimSpace(parts[|parts| - 1]);
      Bare(parts[..|parts| - 1]) + if part == "" then [] else [part]
  }

  lemma {:induction false} BareConcat(a: seq<string>, b: seq<string>)
    ensures Bare(a + b) == Bare(a) + Bare(b)
  {
    if b == [] {
      assert a + b == a;
    } else {
      assert (a + b)[..|a + b| - 1] == a + b[..|b| - 1];
      BareConcat(a, b[..|b| - 1]);
    }
  }

  lemma {:induction false} TrimRightKeepsText(part: string)
    ensures TrimSpace(TrimRight(part, ' ')) == TrimSpace(part)
  {
    if part != "" && part[|part| - 1] == ' ' {
      TrimRightKeepsText(part[..|part| - 1]);
      TrimSpaceDropsLast(part);
    }
  }

  lemma {:induction false} TrimSpaceDropsLast(s: string)
    requires s != "" && IsSpace(s[|s| - 1])
    ensures TrimSpace(s) == TrimSpace(s[..|s| - 1])
  {
    if IsSpace(s[0]) && |s| > 1 {
      TrimSpaceDropsLast(s[1..]);
      assert s[1..][..|s| - 2] == s[..|s| - 1][1..];
    }
  }

  /** No part of the input is lost, invented or moved: the entries hold its parts that are not blank, in order. */
  lemma {:induction false} PartsKept(parts: seq<string>)
    requires Free(',', parts)
    ensures Bare(Split(Join(Collected(parts), ","), ',')) == Bare(parts)
  {
    if parts == [] {
      assert Bare([""]) == [];
    } else {
      var init, part := parts[..|parts| - 1], parts[|parts| - 1];
      PartsKept(init);
      var point := Collected(init);
      if TrimSpace(part) != "" {
        if '=' in part || point == [] {
          TrimSpaceKeeps(part, ',');
          EntryAdded(point, TrimSpace(part));
        } else {
          EntryGrown(point, TrimRight(part, ' '));
          TrimRightKeepsText(part);
        }
      }
    }
  }

  lemma EntryAdded(point: seq<string>, e: string)
    requires ',' !in e && e != "" && TrimSpace(e) == e
    ensures Bare(Split(Join(point + [e], ","), ',')) == Bare(Split(Join(point, ","), ',')) + [e]
  {
    SplitWhole(',', e);
    assert Bare([e]) == Bare([]) + [e];
    if point == [] {
      assert Bare([""]) == [];
    } else {
      assert (point + [e])[..|point|] == point;
      SplitSnoc(point + [e]);
      BareConcat(Split(Join(point, ","), ','), [e]);
    }
  }

  lemma EntryGrown(point: seq<string>, t: string)
    requires point != [] && ',' !in t && TrimSpace(t) != ""
    ensures Bare(Split(Join(point[..|point| - 1] + [point[|point| - 1] + "," + t], ","), ','))
         == Bare(Split(Join(point, ","), ',')) + [TrimSpace(t)]
  {
    var init, e := point[..|point| - 1], point[|point| - 1];
    SplitWhole(',', t);
    SplitOfJoined(',', e, t);
    PartsSnoc(init, e + "," + t);
    PartsSnoc(init, e);
    InitAndLast(point);
    Regroup(PartsOf(init), Split(e, ','), [t]);
    BareConcat(PartsOf(point), [t]);
    assert Bare([t]) == Bare([]) + [TrimSpace(t)];
  }
}
