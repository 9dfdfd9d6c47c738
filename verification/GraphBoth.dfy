/** Dependents, and both directions over one shared visited set. */
module GraphBoth {
  import opened Sequences
  import opened GraphDeps

  // ------------------------------------------------------ reverse adjacency

  /** How often n stands among the neighbours of x. */
  function Times(adj: Adjacency, x: string, n: string): nat {
    multiset(Neighbours(adj, x))[n]
  }

  /** Every DependsOn occurrence, seen from the other end. */
  ghost predicate IsReverse(g: Adjacency, rev: Adjacency) {
    forall x, n :: Times(rev, x, n) == Times(g, n, x)
  }

  method BuildReverse(g: Adjacency) returns (rev: Adjacency)
    ensures IsReverse(g, rev)
  {
    rev := map[];
    var todo := g.Keys;
    while todo != {}
      invariant todo <= g.Keys
      invariant forall x, n :: Times(rev, x, n) == if n in todo then 0 else Times(g, n, x)
    {
      var id :| id in todo;
      rev := AddDependents(rev, id, g[id]);
      todo := todo - {id};
    }
  }

  lemma OneDependent(rev: Adjacency, of: string, id: string)
    ensures forall x, n :: Times(rev[of := Neighbours(rev, of) + [id]], x, n)
                        == Times(rev, x, n) + if n == id && x == of then 1 else 0
  {
  }

  method AddDependents(rev: Adjacency, id: string, deps: seq<string>) returns (rev': Adjacency)
    ensures forall x, n :: Times(rev', x, n) == Times(rev, x, n) + if n == id then multiset(deps)[x] else 0
  {
    rev' := rev;
    for i := 0 to |deps|
      invariant forall x, n :: Times(rev', x, n) == Times(rev, x, n) + if n == id then multiset(deps[..i])[x] else 0
    {
      assert deps[..i + 1] == deps[..i] + [deps[i]];
      ghost var before := rev';
      rev' := rev'[deps[i] := Neighbours(rev', deps[i]) + [id]];
      OneDependent(before, deps[i], id);
    }
    assert deps[..|deps|] == deps;
  }

  // ---------------------------------------------------- what avoiding costs

  lemma LedToLess(adj: Adjacency, avoid: set<string>, less: set<string>, b: set<string>, c: set<string>)
    requires b <= c && less <= avoid
    ensures LedTo(adj, avoid, b) <= LedTo(adj, less, c)
  {
  }

  lemma {:induction false} BallShrinks(adj: Adjacency, avoid: set<string>, root: string, d: nat)
    ensures Ball(adj, avoid, root, d) <= Ball(adj, {}, root, d)
  {
    if d > 0 {
      BallShrinks(adj, avoid, root, d - 1);
      LedToLess(adj, avoid, {}, Ball(adj, avoid, root, d - 1), Ball(adj, {}, root, d - 1));
    }
  }

  lemma {:induction false} AvoidedBall(adj: Adjacency, avoid: set<string>, root: string, d: nat)
    ensures Ball(adj, avoid, root, d) <= Ball(adj, {}, root, d)
    ensures forall id | id in Ball(adj, avoid, root, d) && id in avoid :: id == root
    ensures root in Ball(adj, avoid, root, d)
  {
    if d > 0 {
      AvoidedBall(adj, avoid, root, d - 1);
    }
    BallShrinks(adj, avoid, root, d);
  }

  lemma {:induction false} SameBall(adj: Adjacency, avoid: set<string>, root: string, d: nat)
    requires forall id | id in avoid && id in Ball(adj, {}, root, d) :: id == root
    ensures Ball(adj, avoid, root, d) == Ball(adj, {}, root, d)
  {
    if d > 0 {
      BallGrows(adj, {}, root, d - 1, d);
      SameBall(adj, avoid, root, d - 1);
      AvoidedBall(adj, avoid, root, d);
      AvoidedBall(adj, avoid, root, d - 1);
    }
  }

  ghost predicate SameExpansion(adj: Adjacency, avoid: set<string>, root: string, maxDepth: int) {
    forall id :: IsExpanded(adj, avoid, root, maxDepth, id) <==> IsExpanded(adj, {}, root, maxDepth, id)
  }

  /** A search that starts with visited ids expands, and so records the edges of, what a fresh search does if and only
      if the fresh search expands none of them but the root. */
  lemma AvoidingLosesNothingIff(adj: Adjacency, avoid: set<string>, root: string, maxDepth: int)
    ensures SameExpansion(adj, avoid, root, maxDepth) <==>
            forall id | id in avoid && IsExpanded(adj, {}, root, maxDepth, id) :: id == root
  {
    if SameExpansion(adj, avoid, root, maxDepth) {
      forall id | id in avoid && IsExpanded(adj, {}, root, maxDepth, id) ensures id == root {
        assert IsExpanded(adj, avoid, root, maxDepth, id);
        if maxDepth > 0 {
          AvoidedBall(adj, avoid, root, maxDepth - 1);
        } else {
          var d: nat :| id in Ball(adj, avoid, root, d);
          AvoidedBall(adj, avoid, root, d);
        }
      }
    }
    if forall id | id in avoid && IsExpanded(adj, {}, root, maxDepth, id) :: id == root {
      if maxDepth > 0 {
        SameBall(adj, avoid, root, maxDepth - 1);
      } else {
        forall d: nat ensures Ball(adj, avoid, root, d) == Ball(adj, {}, root, d) {
          forall id | id in avoid && id in Ball(adj, {}, root, d) ensures id == root {
            assert IsExpanded(adj, {}, root, maxDepth, id);
          }
          SameBall(adj, avoid, root, d);
        }
      }
    }
  }

  /** When no expansion is lost, no visited node is lost either. */
  lemma NoNodeLost(adj: Adjacency, avoid: set<string>, root: string, maxDepth: int)
    requires SameExpansion(adj, avoid, root, maxDepth)
    ensures forall id :: IsVisited(adj, avoid, root, maxDepth, id) <==>
            id in avoid || IsVisited(adj, {}, root, maxDepth, id)
  {
    if maxDepth > 0 {
      var b, c := Ball(adj, avoid, root, maxDepth - 1), Ball(adj, {}, root, maxDepth - 1);
      forall id | id in b ensures id in c {
        assert IsExpanded(adj, avoid, root, maxDepth, id);
      }
      forall id | id in c ensures id in b {
        assert IsExpanded(adj, {}, root, maxDepth, id);
      }
      assert b == c;
    } else {
      forall id ensures IsVisited(adj, avoid, root, maxDepth, id) <==>
          id in avoid || IsVisited(adj, {}, root, maxDepth, id) {
        assert IsExpanded(adj, avoid, root, maxDepth, id) <==> IsExpanded(adj, {}, root, maxDepth, id);
      }
    }
  }

  // -------------------------------------------------------- acyclic graphs

  ghost predicate Leads(g: Adjacency, a: string, b: string) {
    exists d: nat :: b in Ball(g, {}, a, d)
  }

  /** No two nodes depend on each other. A node that depends on itself is allowed. */
  ghost predicate Acyclic(g: Adjacency) {
    forall a, b | a != b && Leads(g, a, b) :: !Leads(g, b, a)
  }

  /** One more step from a smaller ball stays inside one more step from a bigger one. */
  lemma BallMonotone(g: Adjacency, a: string, d: nat, b: string, e: nat)
    requires Ball(g, {}, b, e) <= Ball(g, {}, a, d)
    ensures Ball(g, {}, b, e + 1) <= Ball(g, {}, a, d + 1)
  {
    var small, big := Ball(g, {}, b, e), Ball(g, {}, a, d);
    var none: set<string> := {};
    assert (set x, n | x in small && n in Neighbours(g, x) && n !in none :: n)
        <= (set x, n | x in big && n in Neighbours(g, x) && n !in none :: n);
  }

  lemma {:induction false} BallCompose(g: Adjacency, a: string, b: string, d: nat, e: nat)
    requires b in Ball(g, {}, a, d)
    ensures Ball(g, {}, b, e) <= Ball(g, {}, a, d + e)
    decreases e
  {
    if e == 0 {
      assert Ball(g, {}, b, 0) == {b};
    } else {
      BallCompose(g, a, b, d, e - 1);
      BallMonotone(g, a, d + (e - 1), b, e - 1);
      assert d + (e - 1) + 1 == d + e;
    }
  }

  lemma StepLeads(g: Adjacency, a: string, b: string, c: string)
    requires b in Neighbours(g, a) && Leads(g, b, c)
    ensures Leads(g, a, c)
  {
    assert a in Ball(g, {}, a, 0) && b in Ball(g, {}, a, 1);
    var e: nat :| c in Ball(g, {}, b, e);
    BallCompose(g, a, b, 1, e);
  }

  /** What the reverse search finds leads to the root. */
  lemma {:induction false} DependentsLead(g: Adjacency, rev: Adjacency, root: string, x: string, d: nat)
    requires IsReverse(g, rev) && x in Ball(rev, {}, root, d)
    ensures Leads(g, x, root)
    decreases d
  {
    if d == 0 {
      assert root in Ball(g, {}, root, 0);
    } else if x in Ball(rev, {}, root, d - 1) {
      DependentsLead(g, rev, root, x, d - 1);
    } else {
      var y :| y in Ball(rev, {}, root, d - 1) && x in Neighbours(rev, y);
      DependentsLead(g, rev, root, y, d - 1);
      assert Times(rev, y, x) == Times(g, x, y);
      StepLeads(g, x, y, root);
    }
  }

  /** On an acyclic graph the second direction loses no edge and no node to the first one's visited set. */
  lemma AcyclicBothIsExact(g: Adjacency, rev: Adjacency, root: string, maxDepth: int, first: set<string>)
    requires Acyclic(g) && IsReverse(g, rev)
    requires forall id | id in first :: IsVisited(g, {}, root, maxDepth, id)
    ensures SameExpansion(rev, first, root, maxDepth)
    ensures forall id :: IsVisited(rev, first, root, maxDepth, id) <==>
            id in first || IsVisited(rev, {}, root, maxDepth, id)
  {
    forall id | id in first && IsExpanded(rev, {}, root, maxDepth, id) ensures id == root {
      assert Leads(g, root, id);
      if maxDepth > 0 {
        DependentsLead(g, rev, root, id, maxDepth - 1);
      } else {
        var d: nat :| id in Ball(rev, {}, root, d);
        DependentsLead(g, rev, root, id, d);
      }
    }
    AvoidingLosesNothingIff(rev, first, root, maxDepth);
    NoNodeLost(rev, first, root, maxDepth);
  }

  /** On a cycle it does lose: with a and b depending on each other, the second pass from a never expands b. */
  lemma CycleLosesEdges(rev: Adjacency)
    requires IsReverse(map["a" := ["b"], "b" := ["a"]], rev)
    ensures IsExpanded(rev, {}, "a", 0, "b") && !IsExpanded(rev, {"a", "b"}, "a", 0, "b")
  {
    var g: Adjacency := map["a" := ["b"], "b" := ["a"]];
    assert Neighbours(g, "b") == ["a"];
    assert Times(rev, "a", "b") == Times(g, "b", "a") == 1;
    assert "b" in Neighbours(rev, "a");
    assert "a" in Ball(rev, {}, "a", 0) && "b" in Ball(rev, {}, "a", 1);
    forall d: nat ensures "b" !in Ball(rev, {"a", "b"}, "a", d) {
      AvoidedBall(rev, {"a", "b"}, "a", d);
    }
  }

  // ------------------------------------------------------------ the command

  datatype Direction = In | Out | Both

  /** The dependency query: outgoing first, then incoming over the same visited set. */
  method GraphQuery(g: Adjacency, root: string, dir: Direction, maxDepth: int)
    returns (visited: set<string>, edges: seq<Edge>, ghost rev: Adjacency, ghost out: seq<string>,
             ghost back: seq<string>,
             ghost first: set<string>)
    ensures IsReverse(g, rev) && Distinct(out) && Distinct(back)
    ensures edges == AllEdges(g, out, true) + AllEdges(rev, back, false)
    ensures dir.In? ==> out == []
    ensures dir.Out? ==> back == []
    ensures !dir.In? ==> forall id :: id in out <==> IsExpanded(g, {}, root, maxDepth, id)
    ensures dir.In? || (dir.Both? && Acyclic(g)) ==>
              forall id :: id in back <==> IsExpanded(rev, {}, root, maxDepth, id)
    ensures forall id :: id in first <==> !dir.In? && IsVisited(g, {}, root, maxDepth, id)
    ensures !dir.Out? ==> forall id :: id in back <==> IsExpanded(rev, first, root, maxDepth, id)
    ensures !dir.Out? ==> forall id :: id in visited <==> IsVisited(rev, first, root, maxDepth, id)
    ensures !dir.Out? ==>
              ((forall id :: id in back <==> IsExpanded(rev, {}, root, maxDepth, id)) <==>
               forall id | id in first && IsExpanded(rev, {}, root, maxDepth, id) :: id == root)
    ensures dir.Out? ==> forall id :: id in visited <==> IsVisited(g, {}, root, maxDepth, id)
    ensures dir.In? ==> forall id :: id in visited <==> IsVisited(rev, {}, root, maxDepth, id)
    ensures dir.Both? && Acyclic(g) ==> forall id ::
              id in visited <==> IsVisited(g, {}, root, maxDepth, id) || IsVisited(rev, {}, root, maxDepth, id)
  {
    var reverse := BuildReverse(g);
    rev, out, back, first := reverse, [], [], {};
    var t := new Traversal();
    if !dir.In? {
      out := Traverse(g, root, true, maxDepth, t);
    }
    first := t.visited;
    ghost var e1 := t.edges;
    assert e1 == [] + AllEdges(g, out, true) == AllEdges(g, out, true);
    if !dir.Out? {
      back := Traverse(reverse, root, false, maxDepth, t);
      AvoidingLosesNothingIff(rev, first, root, maxDepth);
      if dir.Both? && Acyclic(g) {
        AcyclicBothIsExact(g, rev, root, maxDepth, first);
      }
    }
    assert e1 + AllEdges(rev, [], false) == e1;
    visited, edges := t.visited, t.edges;
  }
}
