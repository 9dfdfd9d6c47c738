/** The shape of the printed tree, read from its lines alone: where a line hangs, and what its prefix draws. */
module GraphShape {
  import opened Sequences
  import opened GraphTree

  /** Four columns a level: a bar below a line that is not its parent's last, and blanks below one that is. */
  function Columns(last: bool): string {
    if last then "    " else "\U{2502}   "
  }

  /** Line j is where line i hangs: the nearest one above with a level less; its prefix goes on with its columns. */
  predicate HangsOn(lines: seq<Line>, j: int, i: int) {
    && 0 <= j < i < |lines|
    && lines[i].prefix == lines[j].prefix + Columns(lines[j].last)
    && forall k | j < k < i :: |lines[k].prefix| >= |lines[i].prefix|
  }

  ghost predicate Hangs(lines: seq<Line>, i: int) {
    exists j :: HangsOn(lines, j, i)
  }

  /** Every line begins at the prefix, or hangs on one above it. */
  ghost predicate Shaped(lines: seq<Line>, prefix: string) {
    forall i | 0 <= i < |lines| :: ShapedAt(lines, prefix, i)
  }

  ghost predicate ShapedAt(lines: seq<Line>, prefix: string, i: int)
    requires 0 <= i < |lines|
  {
    |lines[i].prefix| >= |prefix| && (lines[i].prefix == prefix || Hangs(lines, i))
  }

  lemma HangsInside(a: seq<Line>, b: seq<Line>, c: seq<Line>, i: int)
    requires 0 <= i < |b| && Hangs(b, i)
    ensures Hangs(a + b + c, |a| + i)
  {
    var j :| HangsOn(b, j, i);
    var lines := a + b + c;
    assert forall k | 0 <= k < |b| :: lines[|a| + k] == b[k];
    assert forall k | |a| + j < k < |a| + i :: lines[k] == b[k - |a|];
    assert HangsOn(lines, |a| + j, |a| + i);
  }

  lemma ShapedJoined(a: seq<Line>, b: seq<Line>, prefix: string)
    requires Shaped(a, prefix) && Shaped(b, prefix)
    ensures Shaped(a + b, prefix)
  {
    var lines := a + b;
    assert [] + a + b == lines && a + b + [] == lines;
    forall i | 0 <= i < |lines| ensures ShapedAt(lines, prefix, i) {
      if i < |a| {
        assert ShapedAt(a, prefix, i);
        if Hangs(a, i) { HangsInside([], a, b, i); }
      } else {
        assert ShapedAt(b, prefix, i - |a|);
        if Hangs(b, i - |a|) { HangsInside(a, b, [], i - |a|); }
      }
    }
  }

  /** A tree below a line hangs on it. */
  lemma BlockShaped(line: Line, tree: seq<Line>, prefix: string)
    requires line.prefix == prefix && Shaped(tree, prefix + Columns(line.last))
    ensures Shaped([line] + tree, prefix)
  {
    var lines, next := [line] + tree, prefix + Columns(line.last);
    assert lines + [] == lines;
    forall i | 0 <= i < |lines| ensures ShapedAt(lines, prefix, i) {
      if i > 0 {
        assert ShapedAt(tree, next, i - 1);
        if tree[i - 1].prefix == next {
          forall k | 0 < k < i ensures |lines[k].prefix| >= |lines[i].prefix| {
            assert ShapedAt(tree, next, k - 1);
          }
          assert HangsOn(lines, 0, i);
        } else {
          HangsInside([line], tree, [], i - 1);
        }
      }
    }
  }

  lemma {:induction false} BlocksShaped(blocks: seq<seq<Line>>, prefix: string)
    requires forall i | 0 <= i < |blocks| :: Shaped(blocks[i], prefix)
    ensures Shaped(Flat(blocks), prefix)
  {
    if blocks != [] {
      BlocksShaped(blocks[..|blocks| - 1], prefix);
      ShapedJoined(Flat(blocks[..|blocks| - 1]), blocks[|blocks| - 1], prefix);
    }
  }

  /** The lines of a tree are shaped. */
  lemma {:induction false} TreeShaped(g: Graph, p: seq<string>, prefix: string, lines: seq<Line>)
    requires IsTree(g, p, prefix, lines)
    ensures Shaped(lines, prefix)
    decreases g.Keys - Elements(p), 1
  {
    var children, blocks :|
      && SortedUnder(g, p[|p| - 1], children) && |blocks| == |children| && lines == Flat(blocks)
      && forall i | 0 <= i < |blocks| :: IsBlock(g, p, prefix, children[i], i == |children| - 1, blocks[i]);
    forall i | 0 <= i < |blocks| ensures Shaped(blocks[i], prefix) {
      ChildShaped(g, p, prefix, children[i], i == |children| - 1, blocks[i]);
    }
    BlocksShaped(blocks, prefix);
  }

  lemma {:induction false} ChildShaped(g: Graph, p: seq<string>, prefix: string, child: string, last: bool,
                                       block: seq<Line>)
    requires IsBlock(g, p, prefix, child, last, block)
    ensures Shaped(block, prefix)
    decreases g.Keys - Elements(p), 0
  {
    assert block == [block[0]] + block[1..];
    if child in p || child !in g {
      BlockShaped(block[0], [], prefix);
    } else {
      assert child in g.Keys - Elements(p) && child in Elements(p + [child]);
      TreeShaped(g, p + [child], NextPrefix(prefix, last), block[1..]);
      BlockShaped(block[0], block[1..], prefix);
    }
  }
}
