/** printGraphTree: a recursive printer with an on-path set over a graph that may have cycles and dangling ids. */
module GraphTree {
  import opened Sequences
  import Sorting

  datatype Node = Node(kind: string, name: string, dependsOn: seq<string>)

  type Graph = map<string, Node>

  // -------------------------------------------------------- sorted children

  function Found(g: Graph, deps: seq<string>): (r: seq<string>)
    ensures forall x :: x in r <==> x in deps && x in g
  {
    if deps == [] then []
    else (if deps[0] in g then [deps[0]] else []) + Found(g, deps[1..])
  }

  /** By kind, then by display name. */
  predicate Before(g: Graph, a: string, b: string)
    requires a in g && b in g
  {
    if g[a].kind == g[b].kind then Sorting.StrLe(g[a].name, g[b].name) else Sorting.StrLe(g[a].kind, g[b].kind)
  }

  lemma BeforeTotal(g: Graph, a: string, b: string)
    requires a in g && b in g
    ensures Before(g, a, b) || Before(g, b, a)
  {
    Sorting.StrLeTotal(g[a].name, g[b].name);
    Sorting.StrLeTotal(g[a].kind, g[b].kind);
  }

  lemma BeforeTransitive(g: Graph, a: string, b: string, c: string)
    requires a in g && b in g && c in g && Before(g, a, b) && Before(g, b, c)
    ensures Before(g, a, c)
  {
    if g[a].kind == g[b].kind && g[b].kind == g[c].kind {
      Sorting.StrLeTransitive(g[a].name, g[b].name, g[c].name);
    } else if g[a].kind == g[c].kind {
      Sorting.StrLeAntisymmetric(g[a].kind, g[b].kind);
    } else if g[a].kind != g[b].kind && g[b].kind != g[c].kind {
      Sorting.StrLeTransitive(g[a].kind, g[b].kind, g[c].kind);
    }
  }

  ghost predicate InOrder(g: Graph, s: seq<string>) {
    (forall x | x in s :: x in g) && forall i, j | 0 <= i < j < |s| :: Before(g, s[i], s[j])
  }

  /** The children that exist, sorted; a dependency listed twice appears twice. */
  method SortedChildren(g: Graph, id: string) returns (r: seq<string>)
    requires id in g
    ensures multiset(r) == multiset(Found(g, g[id].dependsOn))
    ensures InOrder(g, r)
  {
    var found := Found(g, g[id].dependsOn);
    r := [];
    for i := 0 to |found|
      invariant multiset(r) == multiset(found[..i])
      invariant InOrder(g, r)
    {
      TakeNext(found, i);
      assert found[i] in found;
      r := Insert(g, found[i], r);
    }
    assert found[..|found|] == found;
  }

  method Insert(g: Graph, x: string, s: seq<string>) returns (r: seq<string>)
    requires x in g && InOrder(g, s)
    ensures multiset(r) == multiset(s) + multiset{x} && InOrder(g, r)
  {
    var i := |s|;
    assert forall j | 0 <= j < |s| :: s[j] in s;
    while i > 0 && !Before(g, s[i - 1], x)
      invariant 0 <= i <= |s| && forall j | 0 <= j < |s| :: s[j] in g
      invariant forall j | i <= j < |s| :: s[j] in g && Before(g, x, s[j])
    {
      BeforeTotal(g, s[i - 1], x);
      i := i - 1;
    }
    InsertedInOrder(g, x, s, i);
    r := s[..i] + [x] + s[i..];
    InsertedElements(s, x, i);
  }

  lemma InsertedElements<T>(s: seq<T>, x: T, i: nat)
    requires i <= |s|
    ensures multiset(s[..i] + [x] + s[i..]) == multiset(s) + multiset{x}
  {
    assert s == s[..i] + s[i..];
  }

  lemma InsertedInOrder(g: Graph, x: string, s: seq<string>, i: nat)
    requires x in g && InOrder(g, s) && i <= |s|
    requires forall j | i <= j < |s| :: s[j] in g && Before(g, x, s[j])
    requires i > 0 ==> s[i - 1] in g && Before(g, s[i - 1], x)
    ensures InOrder(g, s[..i] + [x] + s[i..])
  {
    var r := s[..i] + [x] + s[i..];
    forall j | 0 <= j < i ensures s[j] in g && Before(g, s[j], x) {
      assert s[j] in s;
      if j < i - 1 {
        BeforeTransitive(g, s[j], s[i - 1], x);
      }
    }
    assert forall y | y in r :: y in s || y == x;
    forall a, b | 0 <= a < b < |r| ensures Before(g, r[a], r[b]) {
      assert r[a] == if a < i then s[a] else if a == i then x else s[a - 1];
      assert r[b] == if b < i then s[b] else if b == i then x else s[b - 1];
    }
  }

  // ------------------------------------------------------------- the paths

  ghost predicate IsPath(g: Graph, p: seq<string>) {
    p != [] && (forall x | x in p :: x in g) && forall i | 0 <= i < |p| - 1 :: p[i + 1] in g[p[i]].dependsOn
  }

  ghost predicate Simple(p: seq<string>) {
    forall i, j | 0 <= i < j < |p| :: p[i] != p[j]
  }

  /** A path, and whether its last node repeats an earlier one. */
  type Shown = (seq<string>, bool)

  /** A proper extension of the path p that is simple but for a last node that may repeat; the flag says if it does. */
  ghost predicate Listed(g: Graph, p: seq<string>, s: Shown) {
    var q := s.0;
    && p < q && IsPath(g, q) && Simple(q[..|q| - 1])
    && (s.1 <==> q[|q| - 1] in q[..|q| - 1])
  }

  datatype Line = Line(prefix: string, last: bool, id: string, cycle: bool)

  /** The printed line of a path: its node, its mark, and four columns of prefix a level. */
  ghost predicate ShowsAs(line: Line, s: Shown) {
    |s.0| >= 2 && line.id == s.0[|s.0| - 1] && line.cycle == s.1 && |line.prefix| == 4 * (|s.0| - 2)
  }

  ghost predicate AllShow(lines: seq<Line>, shown: seq<Shown>) {
    |lines| == |shown| && forall i | 0 <= i < |lines| :: ShowsAs(lines[i], shown[i])
  }

  /** Sorted children: the sort leaves the order of equal names open. */
  ghost predicate SortedUnder(g: Graph, id: string, children: seq<string>) {
    id in g && InOrder(g, children) && multiset(children) == multiset(Found(g, g[id].dependsOn))
  }

  function Flat(blocks: seq<seq<Line>>): seq<Line> {
    if blocks == [] then [] else Flat(blocks[..|blocks| - 1]) + blocks[|blocks| - 1]
  }

  function NextPrefix(prefix: string, last: bool): string {
    prefix + if last then "    " else "\U{2502}   "
  }

  ghost function Elements(p: seq<string>): set<string> {
    set x | x in p
  }

  /** The lines below a path: one block a child, in the order of the children. */
  ghost predicate IsTree(g: Graph, p: seq<string>, prefix: string, lines: seq<Line>)
    decreases g.Keys - Elements(p), 1
  {
    p != [] && exists children, blocks ::
      && SortedUnder(g, p[|p| - 1], children) && |blocks| == |children| && lines == Flat(blocks)
      && forall i | 0 <= i < |blocks| :: IsBlock(g, p, prefix, children[i], i == |children| - 1, blocks[i])
  }

  /** The lines of one child: its own, and the tree below it unless it repeats a node of the path. */
  ghost predicate IsBlock(g: Graph, p: seq<string>, prefix: string, child: string, last: bool, block: seq<Line>)
    decreases g.Keys - Elements(p), 0
  {
    && block != [] && block[0] == Line(prefix, last, child, child in p)
    && if child in p || child !in g then |block| == 1
       else
         assert child in g.Keys - Elements(p) && child in Elements(p + [child]);
         IsTree(g, p + [child], NextPrefix(prefix, last), block[1..])
  }

  /** The first blocks of a tree, and their lines. */
  ghost predicate AreBlocks(g: Graph, p: seq<string>, prefix: string, children: seq<string>, blocks: seq<seq<Line>>,
                            lines: seq<Line>)
  {
    && |blocks| <= |children| && lines == Flat(blocks)
    && forall i | 0 <= i < |blocks| :: IsBlock(g, p, prefix, children[i], i == |children| - 1, blocks[i])
  }

  lemma OneMoreBlock(g: Graph, p: seq<string>, prefix: string, children: seq<string>, blocks: seq<seq<Line>>,
                     lines: seq<Line>, block: seq<Line>)
    requires AreBlocks(g, p, prefix, children, blocks, lines) && |blocks| < |children|
    requires IsBlock(g, p, prefix, children[|blocks|], |blocks| == |children| - 1, block)
    ensures AreBlocks(g, p, prefix, children, blocks + [block], lines + block)
  {
    InitOfAppended(blocks, block);
  }

  /** The lines show exactly the extensions of p. */
  ghost predicate PathsShown(g: Graph, p: seq<string>, lines: seq<Line>) {
    exists shown :: AllShow(lines, shown) && forall s :: s in shown <==> Listed(g, p, s)
  }

  /** Extensions of p whose next node is one of the given children. */
  ghost predicate ListedUnder(g: Graph, p: seq<string>, children: seq<string>, s: Shown) {
    Listed(g, p, s) && s.0[|p|] in children
  }

  /** A repeated node ends the path. */
  lemma RepeatIsLast(p: seq<string>, q: seq<string>)
    requires p < q && Simple(q[..|q| - 1]) && q[|p|] in p
    ensures |q| == |p| + 1
  {
    var r := q[..|q| - 1];
    assert forall k | 0 <= k < |r| :: r[k] == q[k];
    var i :| 0 <= i < |p| && p[i] == q[|p|];
    assert q[i] == q[|p|];
  }

  lemma ExtensionsSplit(g: Graph, p: seq<string>, child: string, s: Shown)
    requires IsPath(g, p) && Simple(p) && child in g && child in g[p[|p| - 1]].dependsOn
    ensures ListedUnder(g, p, [child], s) <==>
            if child in p then s == (p + [child], true)
            else s == (p + [child], false) || Listed(g, p + [child], s)
  {
    var q, pc := s.0, p + [child];
    if ListedUnder(g, p, [child], s) {
      assert q[..|p| + 1] == pc;
      if child in p {
        RepeatIsLast(p, q);
      }
      if |q| == |pc| {
        assert q == pc && q[..|q| - 1] == p;
      }
    }
    assert pc[..|pc| - 1] == p && p < pc;
    assert IsPath(g, pc) by {
      assert forall i | 0 <= i < |p| :: pc[i] == p[i];
    }
    if Listed(g, pc, s) {
      assert q[|p|] == child && p < q;
    }
  }

  /** What is printed after some of the children: their blocks, showing the paths through them. */
  ghost predicate Printed(g: Graph, p: seq<string>, prefix: string, children: seq<string>, blocks: seq<seq<Line>>,
                          lines: seq<Line>, shown: seq<Shown>)
  {
    && AreBlocks(g, p, prefix, children, blocks, lines) && AllShow(lines, shown)
    && forall s :: s in shown <==> ListedUnder(g, p, children[..|blocks|], s)
  }

  lemma OneMorePrinted(g: Graph, p: seq<string>, prefix: string, children: seq<string>, blocks: seq<seq<Line>>,
                       lines: seq<Line>, shown: seq<Shown>, block: seq<Line>, more: seq<Shown>)
    requires Printed(g, p, prefix, children, blocks, lines, shown) && |blocks| < |children|
    requires IsBlock(g, p, prefix, children[|blocks|], |blocks| == |children| - 1, block)
    requires AllShow(block, more) && forall s :: s in more <==> ListedUnder(g, p, [children[|blocks|]], s)
    ensures Printed(g, p, prefix, children, blocks + [block], lines + block, shown + more)
  {
    UnderOneMore(g, p, children, |blocks|);
    OneMoreBlock(g, p, prefix, children, blocks, lines, block);
  }

  class Printer {
    var stack: set<string>
    var lines: seq<Line>

    constructor ()
      ensures stack == {} && lines == []
    {
      stack, lines := {}, [];
    }

    /** Prints exactly the extensions of the path, and leaves the stack as it found it. */
    method PrintChildren(g: Graph, id: string, prefix: string, ghost p: seq<string>)
      returns (ghost tree: seq<Line>, ghost shown: seq<Shown>)
      requires id in g && id !in stack && stack <= g.Keys
      requires IsPath(g, p) && Simple(p) && p[|p| - 1] == id && (forall x :: x in p <==> x in stack || x == id)
      requires |prefix| == 4 * (|p| - 1)
      modifies this
      decreases g.Keys - stack, 0
      ensures stack == old(stack)
      ensures lines == old(lines) + tree && AllShow(tree, shown)
      ensures forall s :: s in shown <==> Listed(g, p, s)
      ensures IsTree(g, p, prefix, tree)
    {
      ghost var lines0, stack0 := lines, stack;
      stack := stack + {id};
      var children := SortedChildren(g, id);
      ChildrenOf(g, id, children);
      tree, shown := [], [];
      ghost var blocks: seq<seq<Line>> := [];
      for i := 0 to |children|
        invariant stack == stack0 + {id}
        invariant lines == lines0 + tree
        invariant |blocks| == i && Printed(g, p, prefix, children, blocks, tree, shown)
      {
        ghost var block, more := PrintChild(g, children[i], prefix, i == |children| - 1, p);
        OneMorePrinted(g, p, prefix, children, blocks, tree, shown, block, more);
        Regroup(lines0, tree, block);
        tree, blocks, shown := tree + block, blocks + [block], shown + more;
      }
      assert children[..|children|] == children;
      UnderAll(g, p, children);
      stack := stack - {id};
    }

    method PrintChild(g: Graph, child: string, prefix: string, last: bool, ghost p: seq<string>)
      returns (ghost block: seq<Line>, ghost shown: seq<Shown>)
      requires IsPath(g, p) && Simple(p) && (forall x :: x in p <==> x in stack) && stack <= g.Keys
      requires child in g && child in g[p[|p| - 1]].dependsOn && |prefix| == 4 * (|p| - 1)
      modifies this
      decreases g.Keys - stack, 1
      ensures stack == old(stack)
      ensures lines == old(lines) + block && AllShow(block, shown)
      ensures forall s :: s in shown <==> ListedUnder(g, p, [child], s)
      ensures IsBlock(g, p, prefix, child, last, block)
    {
      ghost var lines0 := lines;
      block, shown := [Line(prefix, last, child, child in stack)], [(p + [child], child in stack)];
      lines := lines + [Line(prefix, last, child, child in stack)];
      ExtensionsUnder(g, p, child);
      if child in stack { return; }
      ghost var tree, rest := PrintChildren(g, child, NextPrefix(prefix, last), p + [child]);
      Regroup(lines0, block, tree);
      TreeBelow(g, p, prefix, child, last, tree, rest);
      block, shown := block + tree, shown + rest;
    }
  }

  /** The block of a child that does not repeat: its line, and the tree below it. */
  lemma TreeBelow(g: Graph, p: seq<string>, prefix: string, child: string, last: bool, tree: seq<Line>,
                  rest: seq<Shown>)
    requires IsPath(g, p) && Simple(p) && child in g && child in g[p[|p| - 1]].dependsOn && child !in p
    requires |prefix| == 4 * (|p| - 1) && IsTree(g, p + [child], NextPrefix(prefix, last), tree)
    requires AllShow(tree, rest) && forall s :: s in rest <==> Listed(g, p + [child], s)
    ensures IsBlock(g, p, prefix, child, last, [Line(prefix, last, child, false)] + tree)
    ensures AllShow([Line(prefix, last, child, false)] + tree, [(p + [child], false)] + rest)
    ensures forall s :: s in [(p + [child], false)] + rest <==> ListedUnder(g, p, [child], s)
  {
    ExtensionsUnder(g, p, child);
    assert ([Line(prefix, last, child, false)] + tree)[1..] == tree;
  }

  lemma ExtensionsUnder(g: Graph, p: seq<string>, child: string)
    requires IsPath(g, p) && Simple(p) && child in g && child in g[p[|p| - 1]].dependsOn
    ensures forall s :: ListedUnder(g, p, [child], s) <==>
              (if child in p then s == (p + [child], true) else s == (p + [child], false) || Listed(g, p + [child], s))
  {
    forall s ensures ListedUnder(g, p, [child], s) <==>
              (if child in p then s == (p + [child], true) else s == (p + [child], false) || Listed(g, p + [child], s))
    {
      ExtensionsSplit(g, p, child, s);
    }
  }

  lemma ChildrenOf(g: Graph, id: string, children: seq<string>)
    requires id in g && multiset(children) == multiset(Found(g, g[id].dependsOn))
    ensures forall x :: x in children <==> x in g && x in g[id].dependsOn
  {
    forall x ensures x in children <==> x in g && x in g[id].dependsOn {
      assert x in children <==> x in multiset(children);
    }
  }

  lemma UnderOneMore(g: Graph, p: seq<string>, children: seq<string>, i: nat)
    requires i < |children|
    ensures forall s :: ListedUnder(g, p, children[..i + 1], s) <==>
              ListedUnder(g, p, children[..i], s) || ListedUnder(g, p, [children[i]], s)
  {
    assert children[..i + 1] == children[..i] + [children[i]];
  }

  lemma UnderAll(g: Graph, p: seq<string>, children: seq<string>)
    requires IsPath(g, p) && forall x :: x in children <==> x in g && x in g[p[|p| - 1]].dependsOn
    ensures forall s :: ListedUnder(g, p, children, s) <==> Listed(g, p, s)
  {
    forall s | Listed(g, p, s) ensures s.0[|p|] in children {
      assert s.0[|p| - 1] == p[|p| - 1] && s.0[|p| - 1 + 1] in g[s.0[|p| - 1]].dependsOn;
    }
  }

  /** A simple path is one that the tree lists, unmarked. */
  lemma SimpleIsListed(g: Graph, root: string, q: seq<string>)
    requires IsPath(g, q) && Simple(q) && [root] < q
    ensures Listed(g, [root], (q, false))
  {
    assert Simple(q[..|q| - 1]);
    assert q[|q| - 1] !in q[..|q| - 1];
  }

  /** The tree of one root, depth first: every simple path from the root that exists in the graph is printed, every
      printed path is simple but for a repeat in its last node, and "[cycle]" marks exactly the repeats. */
  method PrintTree(g: Graph, root: string) returns (lines: seq<Line>)
    requires root in g
    ensures IsTree(g, [root], "", lines)
    ensures PathsShown(g, [root], lines)
  {
    var printer := new Printer();
    ghost var tree, shown := printer.PrintChildren(g, root, "", [root]);
    lines := printer.lines;
    assert [] + tree == tree;
  }
}
