/** traverseGraph: breadth-first search with a depth limit over an arbitrary graph, sharing one visited set. */
module GraphDeps {
  import opened Sequences

  /** Ids with their neighbours, one list element per occurrence. An id without an entry has none. */
  type Adjacency = map<string, seq<string>>

  datatype Edge = Edge(from: string, to: string, outgoing: bool)

  function Neighbours(adj: Adjacency, id: string): seq<string> {
    if id in adj then adj[id] else []
  }

  /** The ids within d steps of the root, never entering an avoided id again. */
  ghost function Ball(adj: Adjacency, avoid: set<string>, root: string, d: nat): set<string> {
    if d == 0 then {root}
    else
      var b := Ball(adj, avoid, root, d - 1);
      b + LedTo(adj, avoid, b)
  }

  /** The ids one edge away from a set. */
  ghost function LedTo(adj: Adjacency, avoid: set<string>, b: set<string>): set<string> {
    set x, n | x in b && n in Neighbours(adj, x) && n !in avoid :: n
  }

  function EdgesOf(id: string, ns: seq<string>, outgoing: bool): (es: seq<Edge>)
    ensures |es| == |ns|
    ensures forall i | 0 <= i < |ns| :: es[i] == if outgoing then Edge(id, ns[i], true) else Edge(ns[i], id, false)
  {
    seq(|ns|, i requires 0 <= i < |ns| => if outgoing then Edge(id, ns[i], true) else Edge(ns[i], id, false))
  }

  /** All edges of the listed ids, in order, once per occurrence. */
  function AllEdges(adj: Adjacency, ids: seq<string>, outgoing: bool): seq<Edge> {
    if ids == [] then []
    else
      var n := |ids| - 1;
      AllEdges(adj, ids[..n], outgoing) + EdgesOf(ids[n], Neighbours(adj, ids[n]), outgoing)
  }

  function Elements(s: seq<string>): set<string> {
    set x | x in s
  }

  /** The neighbours that are new, each once, in order of first occurrence. */
  function NewOnes(ns: seq<string>, visited: set<string>): (r: seq<string>)
    ensures Elements(r) == Elements(ns) - visited
    ensures Distinct(r)
  {
    if ns == [] then []
    else
      var n := |ns| - 1;
      var init := NewOnes(ns[..n], visited);
      assert ns == ns[..n] + [ns[n]];
      if ns[n] in visited || ns[n] in ns[..n] then init
      else
        assert ns[n] !in Elements(init);
        assert Elements(init + [ns[n]]) == Elements(init) + {ns[n]};
        assert Elements(ns) == Elements(ns[..n]) + {ns[n]};
        init + [ns[n]]
  }

  datatype Item = Item(id: string, depth: int)

  function Tagged(ids: seq<string>, depth: int): (r: seq<Item>)
    ensures |r| == |ids| && forall i | 0 <= i < |r| :: r[i] == Item(ids[i], depth)
  {
    seq(|ids|, i requires 0 <= i < |ids| => Item(ids[i], depth))
  }

  /** The state a caller shares between traversals. */
  class Traversal {
    var visited: set<string>
    var edges: seq<Edge>

    constructor ()
      ensures visited == {} && edges == []
    {
      visited, edges := {}, [];
    }
  }

  // -------------------------------------------------------------- the search

  /** Records every edge of id and queues the neighbours that are new. */
  method Expand(adj: Adjacency, id: string, depth: int, outgoing: bool, t: Traversal, queue: seq<Item>)
    returns (queue': seq<Item>)
    modifies t
    ensures t.edges == old(t.edges) + EdgesOf(id, Neighbours(adj, id), outgoing)
    ensures t.visited == old(t.visited) + Elements(Neighbours(adj, id))
    ensures queue' == queue + Tagged(NewOnes(Neighbours(adj, id), old(t.visited)), depth + 1)
  {
    var ns := Neighbours(adj, id);
    ghost var v0, e0 := t.visited, t.edges;
    queue' := queue;
    for i := 0 to |ns|
      invariant t.edges == e0 + EdgesOf(id, ns[..i], outgoing)
      invariant t.visited == v0 + Elements(ns[..i])
      invariant queue' == queue + Tagged(NewOnes(ns[..i], v0), depth + 1)
    {
      var n := ns[i];
      assert ns[..i + 1] == ns[..i] + [n] && ns[..i + 1][..i] == ns[..i];
      var edge := if outgoing then Edge(id, n, true) else Edge(n, id, false);
      assert EdgesOf(id, ns[..i + 1], outgoing) == EdgesOf(id, ns[..i], outgoing) + [edge];
      t.edges := t.edges + [edge];
      if n !in t.visited {
        t.visited := t.visited + {n};
        queue' := queue' + [Item(n, depth + 1)];
        assert Tagged(NewOnes(ns[..i + 1], v0), depth + 1) ==
               Tagged(NewOnes(ns[..i], v0), depth + 1) + [Item(n, depth + 1)];
      }
    }
    assert ns[..|ns|] == ns;
  }

  /** Where the search stands: popped ids, the rest of the current level, the next level, and the expanded ids. */
  datatype Progress = Progress(level: nat, done: seq<string>, front: seq<string>, next: seq<string>,
                               expanded: seq<string>)

  function LevelUp(p: Progress): Progress {
    Progress(p.level + 1, p.done, p.next, [], p.done)
  }

  function Drop(p: Progress): Progress
    requires p.front != []
  {
    Progress(p.level, p.done + [p.front[0]], p.front[1..], p.next, p.expanded)
  }

  function Pop(p: Progress, new': seq<string>): Progress
    requires p.front != []
  {
    Progress(p.level, p.done + [p.front[0]], p.front[1..], p.next + new', p.expanded + [p.front[0]])
  }

  function QueueOf(p: Progress): seq<Item> {
    Tagged(p.front, p.level) + Tagged(p.next, p.level + 1)
  }

  lemma QueueLevelUp(p: Progress)
    requires p.front == []
    ensures QueueOf(LevelUp(p)) == QueueOf(p)
  {
  }

  lemma QueueHead(p: Progress)
    requires p.front != []
    ensures QueueOf(p) != [] && QueueOf(p)[0] == Item(p.front[0], p.level) && QueueOf(Drop(p)) == QueueOf(p)[1..]
  {
    assert Tagged(p.front, p.level) == [Item(p.front[0], p.level)] + Tagged(p.front[1..], p.level);
  }

  lemma QueuePush(p: Progress, queue: seq<Item>, new': seq<string>, queue': seq<Item>)
    requires p.front != [] && queue == QueueOf(p) && queue' == queue[1..] + Tagged(new', p.level + 1)
    ensures queue' == QueueOf(Pop(p, new'))
  {
    QueueHead(p);
    Regroup(Tagged(p.front[1..], p.level), Tagged(p.next, p.level + 1), Tagged(new', p.level + 1));
    assert Tagged(p.next + new', p.level + 1) == Tagged(p.next, p.level + 1) + Tagged(new', p.level + 1);
  }

  /** A turn either visits something new or shortens the queue. */
  lemma TurnShrinks(adj: Adjacency, universe: set<string>, id: string, visited: set<string>)
    requires forall x, n | x in adj && n in adj[x] :: n in universe
    ensures var ns := Elements(Neighbours(adj, id));
            NewOnes(Neighbours(adj, id), visited) == [] || universe - (visited + ns) < universe - visited
    ensures NewOnes(Neighbours(adj, id), visited) == [] ==> visited + Elements(Neighbours(adj, id)) == visited
  {
    var new' := NewOnes(Neighbours(adj, id), visited);
    if new' != [] {
      assert new'[0] in Elements(new');
      assert new'[0] in universe - visited;
    } else {
      assert Elements(new') == {};
      assert Elements(Neighbours(adj, id)) - visited == {};
    }
  }

  lemma EdgesOfOneMore(adj: Adjacency, ids: seq<string>, id: string, outgoing: bool)
    ensures AllEdges(adj, ids + [id], outgoing) ==
            AllEdges(adj, ids, outgoing) + EdgesOf(id, Neighbours(adj, id), outgoing)
  {
    assert (ids + [id])[..|ids|] == ids;
  }

  predicate Expands(maxDepth: int, depth: int) {
    !(maxDepth > 0 && depth >= maxDepth)
  }

  /** Ids outside the ball that the popped ids lead to. */
  ghost function Beyond(adj: Adjacency, avoid: set<string>, ball: set<string>, done: seq<string>): set<string> {
    set x, n | x in done && n in Neighbours(adj, x) && n !in avoid && n !in ball :: n
  }

  ghost predicate Inv(adj: Adjacency, avoid: set<string>, root: string, maxDepth: int, p: Progress,
                      visited: set<string>) {
    var ball := Ball(adj, avoid, root, p.level);
    && Elements(p.done + p.front) == ball && Distinct(p.done + p.front + p.next)
    && visited == avoid + ball + Elements(p.next)
    && (maxDepth > 0 ==> p.level <= maxDepth)
    && (if Expands(maxDepth, p.level) then p.expanded == p.done && Elements(p.next) == Beyond(adj, avoid, ball, p.done)
        else p.next == [] && Distinct(p.expanded) && Elements(p.expanded) == Ball(adj, avoid, root, maxDepth - 1))
  }

  lemma NextLevel(adj: Adjacency, avoid: set<string>, root: string, maxDepth: int, p: Progress, visited: set<string>)
    requires Inv(adj, avoid, root, maxDepth, p, visited) && p.front == [] && Expands(maxDepth, p.level)
    ensures Inv(adj, avoid, root, maxDepth, LevelUp(p), visited)
  {
    var ball, bigger := Ball(adj, avoid, root, p.level), Ball(adj, avoid, root, p.level + 1);
    assert p.done + p.front == p.done && p.done + p.front + p.next == p.done + p.next;
    assert bigger == ball + Beyond(adj, avoid, ball, p.done);
    assert Elements(p.done + p.next) == Elements(p.done) + Elements(p.next);
    assert Beyond(adj, avoid, bigger, p.done) == {};
    assert p.done + p.next + [] == p.done + p.next;
    assert forall i, j | 0 <= i < j < |p.done| ::
        (p.done + p.next)[i] == p.done[i] && (p.done + p.next)[j] == p.done[j];
  }

  lemma Popped(adj: Adjacency, avoid: set<string>, root: string, maxDepth: int, p: Progress, visited: set<string>)
    requires Inv(adj, avoid, root, maxDepth, p, visited) && p.front != [] && Expands(maxDepth, p.level)
    ensures Inv(adj, avoid, root, maxDepth, Pop(p, NewOnes(Neighbours(adj, p.front[0]), visited)),
                visited + Elements(Neighbours(adj, p.front[0])))
  {
    var id, ball := p.front[0], Ball(adj, avoid, root, p.level);
    var fresh' := NewOnes(Neighbours(adj, id), visited);
    var q := Pop(p, fresh');
    assert q.done + q.front == p.done + p.front;
    assert q.done + q.front + q.next == p.done + p.front + p.next + fresh';
    assert Elements(q.next) == Elements(p.next) + Elements(fresh');
    assert forall x | x in fresh' :: x in Elements(fresh') && x !in visited;
    forall x | x in p.done + p.front + p.next ensures x !in fresh' {
      assert x in Elements(p.done + p.front) || x in Elements(p.next);
    }
    DistinctJoin(p.done + p.front + p.next, fresh');
    BeyondStep(adj, avoid, ball, p.done, id, Elements(p.next), visited);
  }

  lemma BeyondStep(adj: Adjacency, avoid: set<string>, ball: set<string>, done: seq<string>, id: string,
                   next: set<string>, visited: set<string>)
    requires next == Beyond(adj, avoid, ball, done) && visited == avoid + ball + next
    ensures Beyond(adj, avoid, ball, done + [id]) == next + (Elements(Neighbours(adj, id)) - visited)
    ensures visited + Elements(Neighbours(adj, id)) == avoid + ball + (next + (Elements(Neighbours(adj, id)) - visited))
  {
    var ns := Neighbours(adj, id);
    forall n ensures n in Beyond(adj, avoid, ball, done + [id]) <==>
        n in next || (n in ns && n !in avoid && n !in ball) {
      assert forall x :: x in done + [id] <==> x in done || x == id;
    }
  }

  lemma DistinctJoin(a: seq<string>, b: seq<string>)
    requires Distinct(a) && Distinct(b) && forall x | x in a :: x !in b
    ensures Distinct(a + b)
  {
    forall i, j | 0 <= i < j < |a + b| ensures (a + b)[i] != (a + b)[j] {
      if i < |a| <= j {
        assert (a + b)[i] in a && (a + b)[j] in b;
      }
    }
  }

  lemma Dropped(adj: Adjacency, avoid: set<string>, root: string, maxDepth: int, p: Progress, visited: set<string>)
    requires Inv(adj, avoid, root, maxDepth, p, visited) && p.front != [] && !Expands(maxDepth, p.level)
    ensures Inv(adj, avoid, root, maxDepth, Drop(p), visited)
  {
    var id := p.front[0];
    assert p.done + [id] + p.front[1..] == p.done + p.front;
  }

  /** When nothing leads beyond the ball it never grows again. */
  lemma {:induction false} ClosedBall(adj: Adjacency, avoid: set<string>, root: string, d: nat, e: nat)
    requires d <= e && Ball(adj, avoid, root, d + 1) == Ball(adj, avoid, root, d)
    ensures Ball(adj, avoid, root, e) == Ball(adj, avoid, root, d)
  {
    if d < e {
      ClosedBall(adj, avoid, root, d, e - 1);
    }
  }

  lemma {:induction false} BallGrows(adj: Adjacency, avoid: set<string>, root: string, d: nat, e: nat)
    requires d <= e
    ensures Ball(adj, avoid, root, d) <= Ball(adj, avoid, root, e)
  {
    if d < e {
      BallGrows(adj, avoid, root, d, e - 1);
    }
  }

  /** The ids the search expands. */
  ghost predicate IsExpanded(adj: Adjacency, avoid: set<string>, root: string, maxDepth: int, id: string) {
    if maxDepth > 0 then id in Ball(adj, avoid, root, maxDepth - 1)
    else exists d: nat :: id in Ball(adj, avoid, root, d)
  }

  /** The ids the search visits. */
  ghost predicate IsVisited(adj: Adjacency, avoid: set<string>, root: string, maxDepth: int, id: string) {
    id in avoid
    || if maxDepth > 0 then id in Ball(adj, avoid, root, maxDepth) else exists d: nat :: id in Ball(adj, avoid, root, d)
  }

  lemma Finished(adj: Adjacency, avoid: set<string>, root: string, maxDepth: int, p: Progress, visited: set<string>)
    requires Inv(adj, avoid, root, maxDepth, p, visited) && p.front == [] && p.next == []
    ensures Distinct(p.expanded)
    ensures forall id :: id in p.expanded <==> IsExpanded(adj, avoid, root, maxDepth, id)
    ensures forall id :: id in visited <==> IsVisited(adj, avoid, root, maxDepth, id)
  {
    var ball := Ball(adj, avoid, root, p.level);
    assert p.done + p.front + p.next == p.done && p.done + p.front == p.done;
    assert forall id :: id in p.expanded <==> id in Elements(p.expanded);
    if Expands(maxDepth, p.level) {
      NothingBeyond(adj, avoid, root, p.level, p.done);
    }
  }

  /** A ball with nothing beyond it is the last. */
  lemma NothingBeyond(adj: Adjacency, avoid: set<string>, root: string, level: nat, done: seq<string>)
    requires Elements(done) == Ball(adj, avoid, root, level)
    requires Beyond(adj, avoid, Ball(adj, avoid, root, level), done) == {}
    ensures forall d: nat :: Ball(adj, avoid, root, d) <= Ball(adj, avoid, root, level)
    ensures forall d: nat :: level <= d ==> Ball(adj, avoid, root, d) == Ball(adj, avoid, root, level)
  {
    var ball := Ball(adj, avoid, root, level);
    assert LedTo(adj, avoid, ball) <= ball + Beyond(adj, avoid, ball, done);
    assert Ball(adj, avoid, root, level + 1) == ball;
    forall d: nat ensures Ball(adj, avoid, root, d) <= ball && (level <= d ==> Ball(adj, avoid, root, d) == ball) {
      if level <= d {
        ClosedBall(adj, avoid, root, level, d);
      } else {
        BallGrows(adj, avoid, root, d, level);
      }
    }
  }

  /** What one turn does to the search, to the visited ids and to the edges. */
  ghost predicate Turned(adj: Adjacency, outgoing: bool, expands: bool, p: Progress, visited: set<string>,
                         edges: seq<Edge>, q: Progress, visited': set<string>, edges': seq<Edge>)
    requires p.front != []
  {
    var ns := Neighbours(adj, p.front[0]);
    if expands
    then q == Pop(p, NewOnes(ns, visited)) && visited' == visited + Elements(ns)
         && edges' == edges + EdgesOf(p.front[0], ns, outgoing)
    else q == Drop(p) && visited' == visited && edges' == edges
  }

  /** The queue and the search after the head was expanded. */
  lemma HeadExpanded(adj: Adjacency, avoid: set<string>, root: string, maxDepth: int, p: Progress, visited: set<string>,
                     queue: seq<Item>, queue': seq<Item>)
    requires Inv(adj, avoid, root, maxDepth, p, visited) && p.front != [] && Expands(maxDepth, p.level)
    requires queue == QueueOf(p)
    requires queue' == queue[1..] + Tagged(NewOnes(Neighbours(adj, p.front[0]), visited), p.level + 1)
    ensures var ns := Neighbours(adj, p.front[0]);
            var q := Pop(p, NewOnes(ns, visited));
            Inv(adj, avoid, root, maxDepth, q, visited + Elements(ns)) && queue' == QueueOf(q)
  {
    Popped(adj, avoid, root, maxDepth, p, visited);
    QueuePush(p, queue, NewOnes(Neighbours(adj, p.front[0]), visited), queue');
  }

  /** Pops the head of the queue, and expands it unless it stands at the limit. */
  method Turn(adj: Adjacency, ghost avoid: set<string>, ghost root: string, outgoing: bool, maxDepth: int, t: Traversal,
              queue: seq<Item>, ghost p: Progress) returns (queue': seq<Item>, ghost q: Progress)
    requires Inv(adj, avoid, root, maxDepth, p, t.visited) && p.front != [] && queue == QueueOf(p)
    modifies t
    ensures Inv(adj, avoid, root, maxDepth, q, t.visited) && queue' == QueueOf(q)
    ensures Turned(adj, outgoing, Expands(maxDepth, p.level), p, old(t.visited), old(t.edges), q, t.visited, t.edges)
  {
    QueueHead(p);
    var item := queue[0];
    if maxDepth > 0 && item.depth >= maxDepth {
      Dropped(adj, avoid, root, maxDepth, p, t.visited);
      queue', q := queue[1..], Drop(p);
    } else {
      ghost var visited := t.visited;
      queue' := Expand(adj, item.id, item.depth, outgoing, t, queue[1..]);
      HeadExpanded(adj, avoid, root, maxDepth, p, visited, queue, queue');
      q := Pop(p, NewOnes(Neighbours(adj, p.front[0]), visited));
    }
  }

  /** Exact for every graph and every visited set it starts from: it expands exactly the ids nearer than the limit,
      each once, records exactly their edges, and visits exactly the ids within the limit. */
  method Traverse(adj: Adjacency, root: string, outgoing: bool, maxDepth: int, t: Traversal)
    returns (ghost order: seq<string>)
    modifies t
    ensures Distinct(order) && forall id :: id in order <==> IsExpanded(adj, old(t.visited), root, maxDepth, id)
    ensures forall id :: id in t.visited <==> IsVisited(adj, old(t.visited), root, maxDepth, id)
    ensures t.edges == old(t.edges) + AllEdges(adj, order, outgoing)
  {
    ghost var avoid, e0 := t.visited, t.edges;
    ghost var universe := {root} + set x, n | x in adj && n in adj[x] :: n;
    var queue := [Item(root, 0)];
    t.visited := t.visited + {root};
    ghost var p := Progress(0, [], [root], [], []);
    StartsWithRoot(adj, avoid, root, maxDepth);
    while queue != []
      invariant Inv(adj, avoid, root, maxDepth, p, t.visited)
      invariant queue == QueueOf(p)
      invariant t.edges == e0 + AllEdges(adj, p.expanded, outgoing)
      decreases universe - t.visited, |queue|
    {
      if p.front == [] {
        QueueLevelUp(p);
        NextLevel(adj, avoid, root, maxDepth, p, t.visited);
        p := LevelUp(p);
      }
      ghost var id, before := p.front[0], p.expanded;
      QueueHead(p);
      TurnShrinks(adj, universe, id, t.visited);
      EdgesOfOneMore(adj, before, id, outgoing);
      Regroup(e0, AllEdges(adj, before, outgoing), EdgesOf(id, Neighbours(adj, id), outgoing));
      ghost var new' := NewOnes(Neighbours(adj, id), t.visited);
      QueuePush(p, queue, new', queue[1..] + Tagged(new', p.level + 1));
      queue, p := Turn(adj, avoid, root, outgoing, maxDepth, t, queue, p);
    }
    Finished(adj, avoid, root, maxDepth, p, t.visited);
    order := p.expanded;
  }

  lemma StartsWithRoot(adj: Adjacency, avoid: set<string>, root: string, maxDepth: int)
    ensures Inv(adj, avoid, root, maxDepth, Progress(0, [], [root], [], []), avoid + {root})
    ensures QueueOf(Progress(0, [], [root], [], [])) == [Item(root, 0)]
  {
    assert [] + [root] == [root] && [] + [root] + [] == [root];
    assert Elements([root]) == {root};
  }
}
