/** Kahn's topological sort over the flow's node and edge lists. */
module TopoSort {
  import opened Wrappers
  import opened Graph

  datatype SortError = CycleDetected | MissingSource

  /** The message of the error the sort throws. */
  function ErrorMessage(e: SortError): string
  {
    match e
    case CycleDetected => "Cycle detected in flow"
    case MissingSource => "Cannot read properties of undefined (reading 'push')"
  }

  function Elems(s: seq<string>): set<string>
  {
    set x | x in s
  }

  function IdSet(nodes: seq<Node>): set<string>
  {
    Elems(NodeIds(nodes))
  }

  function TargetSet(edges: seq<Edge>): set<string>
  {
    set e | e in edges :: e.target
  }

  /** The keys of the in-degree table: every node id and every edge target. */
  function Vertices(nodes: seq<Node>, edges: seq<Edge>): set<string>
  {
    IdSet(nodes) + TargetSet(edges)
  }

  /** Every edge starts at a node of the list. */
  predicate SourcesKnown(nodes: seq<Node>, edges: seq<Edge>)
  {
    forall k :: 0 <= k < |edges| ==> edges[k].source in IdSet(nodes)
  }

  /** Every edge ends at a node of the list. */
  predicate TargetsKnown(nodes: seq<Node>, edges: seq<Edge>)
  {
    forall k :: 0 <= k < |edges| ==> edges[k].target in IdSet(nodes)
  }

  /** The adjacency list of `s`: the targets of its edges, in edge order. */
  function Targets(edges: seq<Edge>, s: string): (r: seq<string>)
  {
    if edges == [] then []
    else
      var last := edges[|edges| - 1];
      Targets(edges[..|edges| - 1], s) + (if last.source == s then [last.target] else [])
  }

  /** How many edges end at `v` and start outside `done`: the in-degree
      that remains once the nodes of `done` are processed. */
  function Pending(edges: seq<Edge>, v: string, done: set<string>): nat
  {
    if edges == [] then 0
    else
      var last := edges[|edges| - 1];
      Pending(edges[..|edges| - 1], v, done) + (if last.target == v && last.source !in done then 1 else 0)
  }

  function Occ(s: seq<string>, v: string): nat
  {
    if s == [] then 0 else Occ(s[..|s| - 1], v) + (if s[|s| - 1] == v then 1 else 0)
  }

  /** Every node of `order` comes after the sources of all edges into it. */
  predicate RespectsEdges(order: seq<string>, edges: seq<Edge>)
  {
    forall i, k :: 0 <= i < |order| && 0 <= k < |edges| && edges[k].target == order[i] ==> edges[k].source in order[..i]
  }

  /** `order` lists every node id exactly once and every edge goes forward. */
  ghost predicate IsTopologicalOrder(order: seq<string>, nodes: seq<Node>, edges: seq<Edge>)
  {
    && Distinct(order)
    && |order| == |nodes|
    && (forall x :: x in order <==> x in IdSet(nodes))
    && RespectsEdges(order, edges)
  }

  /** The state the sort's loop ends in: `p` holds distinct vertices in an
      order that respects the edges, and every vertex left out still has an
      edge into it from a vertex left out. */
  ghost predicate Settled(p: seq<string>, nodes: seq<Node>, edges: seq<Edge>)
  {
    && Distinct(p)
    && (forall x :: x in p ==> x in Vertices(nodes, edges))
    && RespectsEdges(p, edges)
    && (forall v :: v in Vertices(nodes, edges) && v !in p ==> Pending(edges, v, Elems(p)) > 0)
  }

  /** The queue the sort starts from: the ids of nodes without incoming
      edges, in node-list order. */
  function InitialQueue(nodes: seq<Node>, edges: seq<Edge>): (q: seq<string>)
    ensures forall x :: x in q <==> x in IdSet(nodes) && Pending(edges, x, {}) == 0
    ensures Distinct(NodeIds(nodes)) ==> Distinct(q)
  {
    if nodes == [] then []
    else
      var init := nodes[..|nodes| - 1];
      var last := nodes[|nodes| - 1];
      var q := InitialQueue(init, edges);
      assert NodeIds(nodes) == NodeIds(init) + [last.id];
      assert Distinct(NodeIds(nodes)) ==> last.id !in NodeIds(init);
      q + (if Pending(edges, last.id, {}) == 0 then [last.id] else [])
  }

  // ---------------------------------------------------------------------
  // Counting lemmas

  lemma {:induction false} PendingZero(edges: seq<Edge>, v: string, done: set<string>)
    ensures Pending(edges, v, done) == 0 <==>
      forall k :: 0 <= k < |edges| && edges[k].target == v ==> edges[k].source in done
  {
    if edges != [] {
      var init := edges[..|edges| - 1];
      PendingZero(init, v, done);
      assert forall k :: 0 <= k < |init| ==> init[k] == edges[k];
    }
  }

  /** A vertex with pending in-degree has an edge into it from outside. */
  lemma PendingWitness(edges: seq<Edge>, v: string, done: set<string>) returns (k: nat)
    requires Pending(edges, v, done) > 0
    ensures k < |edges| && edges[k].target == v && edges[k].source !in done
  {
    PendingZero(edges, v, done);
    k :| 0 <= k < |edges| && edges[k].target == v && edges[k].source !in done;
  }

  lemma {:induction false} PendingOutsideTargets(edges: seq<Edge>, v: string, done: set<string>)
    requires v !in TargetSet(edges)
    ensures Pending(edges, v, done) == 0
  {
    forall k | 0 <= k < |edges| ensures edges[k].target != v {
      assert edges[k] in edges;
    }
    PendingZero(edges, v, done);
  }

  /** Processing `id` lowers the pending in-degree of each vertex by the
      number of times it occurs in `id`'s adjacency list. */
  lemma {:induction false} PendingRelease(edges: seq<Edge>, v: string, done: set<string>, id: string)
    requires id !in done
    ensures Pending(edges, v, done) == Pending(edges, v, done + {id}) + Occ(Targets(edges, id), v)
  {
    if edges != [] {
      var init := edges[..|edges| - 1];
      PendingRelease(init, v, done, id);
      var last := edges[|edges| - 1];
      var t := Targets(init, id);
      var ext := if last.source == id then [last.target] else [];
      OccAppend(t, ext, v);
    }
  }

  lemma {:induction false} OccAppend(a: seq<string>, b: seq<string>, v: string)
    requires |b| <= 1
    ensures Occ(a + b, v) == Occ(a, v) + Occ(b, v)
  {
    if b != [] {
      assert (a + b)[..|a + b| - 1] == a;
      assert b[..0] == [];
    } else {
      assert a + b == a;
    }
  }

  lemma {:induction false} OccPrefix(s: seq<string>, j: nat, v: string)
    requires j <= |s|
    ensures Occ(s[..j], v) <= Occ(s, v)
    decreases |s|
  {
    if j < |s| {
      OccPrefix(s[..|s| - 1], j, v);
      assert s[..|s| - 1][..j] == s[..j];
    } else {
      assert s[..j] == s;
    }
  }

  lemma {:induction false} TargetsIn(edges: seq<Edge>, s: string)
    ensures forall x :: x in Targets(edges, s) ==> x in TargetSet(edges)
  {
    if edges != [] {
      var init := edges[..|edges| - 1];
      TargetsIn(init, s);
      assert forall e :: e in init ==> e in edges;
      assert edges[|edges| - 1] in edges;
    }
  }

  lemma {:induction false} TargetsOfNonSource(edges: seq<Edge>, s: string)
    requires forall k :: 0 <= k < |edges| ==> edges[k].source != s
    ensures Targets(edges, s) == []
  {
    if edges != [] {
      var init := edges[..|edges| - 1];
      assert forall k :: 0 <= k < |init| ==> init[k] == edges[k];
      TargetsOfNonSource(init, s);
    }
  }

  /** How the tables' specifications change when one edge is added. */
  lemma Snoc(pre: seq<Edge>, e: Edge)
    ensures TargetSet(pre + [e]) == TargetSet(pre) + {e.target}
    ensures forall s :: Targets(pre + [e], s) == Targets(pre, s) + (if e.source == s then [e.target] else [])
    ensures forall v, done :: Pending(pre + [e], v, done) == Pending(pre, v, done) + (if e.target == v && e.source !in done then 1 else 0)
  {
    assert (pre + [e])[..|pre|] == pre;
    assert forall x :: x in pre + [e] <==> x in pre || x == e;
  }

  lemma {:induction false} DistinctCard(s: seq<string>)
    requires Distinct(s)
    ensures |Elems(s)| == |s|
  {
    if s != [] {
      var init := s[..|s| - 1];
      assert Distinct(init);
      DistinctCard(init);
      assert Elems(s) == Elems(init) + {s[|s| - 1]};
      assert s[|s| - 1] !in Elems(init);
    }
  }

  lemma {:induction false} SubsetCard(a: set<string>, b: set<string>)
    requires a <= b
    ensures |a| <= |b|
    decreases b
  {
    if a != {} {
      var x :| x in a;
      SubsetCard(a - {x}, b - {x});
    }
  }

  // ---------------------------------------------------------------------
  // The sort

  /** The in-degree and adjacency tables once both `forEach` passes ran. */
  ghost predicate TablesBuilt(nodes: seq<Node>, edges: seq<Edge>, inDegree: map<string, int>, adj: map<string, seq<string>>)
  {
    && inDegree.Keys == Vertices(nodes, edges)
    && adj.Keys == IdSet(nodes)
    && (forall s :: s in adj ==> adj[s] == Targets(edges, s))
    && (forall v :: v in inDegree ==> inDegree[v] == Pending(edges, v, {}))
  }

  /** The loop's state over the vertex set `K`: remaining in-degrees are
      the pending counts of the processed prefix, the queue holds exactly
      the unprocessed vertices whose count reached zero, and the prefix
      respects the edges. */
  ghost predicate Progress(K: set<string>, edges: seq<Edge>, inDegree: map<string, int>, sorted: seq<string>, queue: seq<string>)
  {
    && inDegree.Keys == K
    && (forall v :: v in K ==> inDegree[v] == Pending(edges, v, Elems(sorted)))
    && Distinct(sorted + queue)
    && (forall v :: v in sorted + queue ==> v in K && inDegree[v] == 0)
    && (forall v :: v in K && inDegree[v] == 0 && v !in sorted ==> v in queue)
    && RespectsEdges(sorted, edges)
  }

  /** The first `forEach`: every node id gets in-degree 0 and an empty
      adjacency list. */
  method InitTables(nodes: seq<Node>) returns (inDegree: map<string, int>, adj: map<string, seq<string>>)
    ensures inDegree.Keys == adj.Keys == IdSet(nodes)
    ensures forall v :: v in inDegree ==> inDegree[v] == 0 && adj[v] == []
  {
    inDegree, adj := map[], map[];
    for i := 0 to |nodes|
      invariant inDegree.Keys == adj.Keys == Elems(NodeIds(nodes)[..i])
      invariant forall v :: v in inDegree ==> inDegree[v] == 0 && adj[v] == []
    {
      assert NodeIds(nodes)[..i + 1] == NodeIds(nodes)[..i] + [nodes[i].id];
      inDegree := inDegree[nodes[i].id := 0];
      adj := adj[nodes[i].id := []];
    }
    assert NodeIds(nodes)[..|nodes|] == NodeIds(nodes);
  }

  /** The tables after the edges `pre` were added. */
  ghost predicate TablesFor(ids: set<string>, pre: seq<Edge>, inDegree: map<string, int>, adj: map<string, seq<string>>)
  {
    && adj.Keys == ids
    && inDegree.Keys == ids + TargetSet(pre)
    && (forall s :: s in adj ==> adj[s] == Targets(pre, s))
    && (forall v :: v in inDegree ==> inDegree[v] == Pending(pre, v, {}))
  }

  /** One step of the second `forEach`, for an edge whose source is a node. */
  method AddEdge(ghost ids: set<string>, ghost pre: seq<Edge>, e: Edge,
                 inDegree: map<string, int>, adj: map<string, seq<string>>)
      returns (inDegree': map<string, int>, adj': map<string, seq<string>>)
    requires e.source in adj && TablesFor(ids, pre, inDegree, adj)
    ensures TablesFor(ids, pre + [e], inDegree', adj')
  {
    Snoc(pre, e);
    adj' := adj[e.source := adj[e.source] + [e.target]];
    var d := if e.target in inDegree then inDegree[e.target] else 0;
    if e.target !in inDegree {
      PendingOutsideTargets(pre, e.target, {});
    }
    inDegree' := inDegree[e.target := d + 1];
  }

  /** The second `forEach`: each edge appends its target to its source's
      list and raises its target's count. An unknown source stops the
      build, as the source's `adj[e.source].push` throws there. */
  method BuildTables(nodes: seq<Node>, edges: seq<Edge>)
      returns (ok: bool, inDegree: map<string, int>, adj: map<string, seq<string>>)
    ensures ok <==> SourcesKnown(nodes, edges)
    ensures ok ==> TablesBuilt(nodes, edges, inDegree, adj)
  {
    ghost var ids := IdSet(nodes);
    inDegree, adj := InitTables(nodes);
    var k := 0;
    assert edges[..0] == [];
    assert TargetSet([]) == {};
    while k < |edges| && edges[k].source in adj
      invariant 0 <= k <= |edges|
      invariant TablesFor(ids, edges[..k], inDegree, adj)
      invariant forall e :: e in edges[..k] ==> e.source in ids
    {
      assert edges[..k + 1] == edges[..k] + [edges[k]];
      assert edges[k].source in ids;
      inDegree, adj := AddEdge(ids, edges[..k], edges[k], inDegree, adj);
      k := k + 1;
    }
    ok := k == |edges|;
    if ok {
      assert edges[..k] == edges;
      assert forall j :: 0 <= j < |edges| ==> edges[j] in edges;
    } else {
      assert edges[k].source !in ids;
    }
  }

  /** `nodes.filter(n => inDegree[n.id] === 0).map(n => n.id)`. */
  method ZeroInDegreeIds(nodes: seq<Node>, edges: seq<Edge>, inDegree: map<string, int>) returns (queue: seq<string>)
    requires forall i :: 0 <= i < |nodes| ==> nodes[i].id in inDegree && inDegree[nodes[i].id] == Pending(edges, nodes[i].id, {})
    ensures queue == InitialQueue(nodes, edges)
  {
    queue := [];
    for i := 0 to |nodes|
      invariant queue == InitialQueue(nodes[..i], edges)
    {
      assert nodes[..i + 1][..i] == nodes[..i];
      queue := queue + (if inDegree[nodes[i].id] == 0 then [nodes[i].id] else []);
    }
    assert nodes[..|nodes|] == nodes;
  }

  /** Counting one more element of a list. */
  lemma OccStep(s: seq<string>, j: nat)
    requires j < |s|
    ensures forall v :: Occ(s[..j + 1], v) == Occ(s[..j], v) + (if s[j] == v then 1 else 0)
  {
    assert s[..j + 1][..j] == s[..j];
  }

  lemma DistinctSnoc(s: seq<string>, w: string)
    requires Distinct(s) && w !in s
    ensures Distinct(s + [w])
  {
  }

  /** The neighbours the inner `forEach` enqueues, in adjacency order,
      when their counts start at `deg`: the occurrence of `w` at which its
      count, lowered once per occurrence so far, reaches zero. A vertex is
      released exactly when its count is at least one and at most its
      number of occurrences. */
  function Released(nbrs: seq<string>, deg: map<string, int>): (r: seq<string>)
    ensures forall x :: x in r <==> x in deg && 1 <= deg[x] <= Occ(nbrs, x)
  {
    if nbrs == [] then []
    else
      var init, w := nbrs[..|nbrs| - 1], nbrs[|nbrs| - 1];
      var r := Released(init, deg) + (if w in deg && deg[w] - Occ(nbrs, w) == 0 then [w] else []);
      assert forall x :: Occ(nbrs, x) == Occ(init, x) + (if w == x then 1 else 0);
      r
  }

  /** What one more neighbour adds to the released list: `left` is its
      count once its occurrences up to `j` are subtracted. */
  lemma ReleasedSnoc(queue: seq<string>, nbrs: seq<string>, j: nat, deg: map<string, int>, left: int)
    requires j < |nbrs| && nbrs[j] in deg
    requires left == deg[nbrs[j]] - Occ(nbrs[..j + 1], nbrs[j])
    ensures queue + Released(nbrs[..j + 1], deg) ==
      (if left == 0 then (queue + Released(nbrs[..j], deg)) + [nbrs[j]] else queue + Released(nbrs[..j], deg))
  {
    assert nbrs[..j + 1][..j] == nbrs[..j];
  }

  /** The inner `forEach` after its first `j` neighbours: `deg` is the
      table with those neighbours decremented, and `q` is free of repeats
      and holds exactly the unprocessed vertices whose count is zero. */
  ghost predicate Releasing(K: set<string>, nbrs: seq<string>, j: nat, goal: map<string, nat>,
                            sorted: seq<string>, deg: map<string, int>, q: seq<string>)
  {
    && j <= |nbrs|
    && deg.Keys == goal.Keys == K
    && (forall v :: v in K ==> deg[v] == goal[v] + Occ(nbrs, v) - Occ(nbrs[..j], v))
    && Distinct(sorted + q)
    && (forall v :: v in sorted + q ==> v in K && deg[v] == 0)
    && (forall v :: v in K && deg[v] == 0 && v !in sorted ==> v in q)
  }

  /** Lowering neighbour `j`'s count keeps the counts equal to the goal
      plus the occurrences not yet visited. */
  lemma ReleaseCounts(K: set<string>, nbrs: seq<string>, j: nat, goal: map<string, nat>,
                      deg: map<string, int>, deg': map<string, int>)
    requires j < |nbrs| && nbrs[j] in K && deg.Keys == goal.Keys == K
    requires forall v :: v in K ==> deg[v] == goal[v] + Occ(nbrs, v) - Occ(nbrs[..j], v)
    requires deg' == deg[nbrs[j] := deg[nbrs[j]] - 1]
    ensures deg[nbrs[j]] >= 1 && deg'.Keys == K
    ensures forall v :: v in K ==> deg'[v] == goal[v] + Occ(nbrs, v) - Occ(nbrs[..j + 1], v)
  {
    OccStep(nbrs, j);
    OccPrefix(nbrs, j + 1, nbrs[j]);
  }

  /** Lowering the count of `w`, which is not yet processed or queued,
      and queueing it when the count reaches zero keeps the queue free of
      repeats and holding exactly the unprocessed zero-count vertices. */
  lemma ReleaseQueue(K: set<string>, sorted: seq<string>, w: string, deg: map<string, int>, q: seq<string>,
                     deg': map<string, int>, q': seq<string>)
    requires deg.Keys == K && w in K && deg[w] >= 1
    requires Distinct(sorted + q)
    requires forall v :: v in sorted + q ==> v in K && deg[v] == 0
    requires forall v :: v in K && deg[v] == 0 && v !in sorted ==> v in q
    requires deg' == deg[w := deg[w] - 1]
    requires q' == if deg'[w] == 0 then q + [w] else q
    ensures Distinct(sorted + q')
    ensures forall v :: v in sorted + q' ==> v in K && deg'[v] == 0
    ensures forall v :: v in K && deg'[v] == 0 && v !in sorted ==> v in q'
  {
    if deg'[w] == 0 {
      DistinctSnoc(sorted + q, w);
      assert sorted + q' == (sorted + q) + [w];
    }
  }

  /** The callback for neighbour `j`: lower its count and enqueue it when
      the count reaches zero. */
  method ReleaseNeighbour(ghost K: set<string>, nbrs: seq<string>, j: nat, ghost goal: map<string, nat>,
                          ghost sorted: seq<string>, deg: map<string, int>, q: seq<string>)
      returns (deg': map<string, int>, q': seq<string>)
    requires j < |nbrs| && nbrs[j] in K && goal.Keys == K
    requires Releasing(K, nbrs, j, goal, sorted, deg, q)
    ensures Releasing(K, nbrs, j + 1, goal, sorted, deg', q')
    ensures deg'[nbrs[j]] == deg[nbrs[j]] - 1
    ensures q' == if deg'[nbrs[j]] == 0 then q + [nbrs[j]] else q
  {
    var w := nbrs[j];
    deg' := deg[w := deg[w] - 1];
    ReleaseCounts(K, nbrs, j, goal, deg, deg');
    q' := if deg'[w] == 0 then q + [w] else q;
    ReleaseQueue(K, sorted, w, deg, q, deg', q');
  }

  /** The inner `forEach`: decrement each neighbour of the node just
      processed and enqueue those whose count reaches zero, in adjacency
      order. `goal` is the count each vertex will have once the whole list
      is processed. */
  method Release(ghost K: set<string>, nbrs: seq<string>, inDegree: map<string, int>,
                 ghost goal: map<string, nat>, ghost sorted: seq<string>, queue: seq<string>)
      returns (inDegree': map<string, int>, queue': seq<string>)
    requires inDegree.Keys == goal.Keys == K
    requires forall x :: x in nbrs ==> x in K
    requires forall v :: v in K ==> inDegree[v] == goal[v] + Occ(nbrs, v)
    requires Distinct(sorted + queue)
    requires forall v :: v in sorted + queue ==> v in K && inDegree[v] == 0
    requires forall v :: v in K && inDegree[v] == 0 && v !in sorted ==> v in queue
    ensures inDegree'.Keys == K
    ensures forall v :: v in K ==> inDegree'[v] == goal[v]
    ensures Distinct(sorted + queue')
    ensures forall v :: v in sorted + queue' ==> v in K && inDegree'[v] == 0
    ensures forall v :: v in K && inDegree'[v] == 0 && v !in sorted ==> v in queue'
    ensures queue' == queue + Released(nbrs, inDegree)
  {
    inDegree', queue' := inDegree, queue;
    assert nbrs[..0] == [] && queue + [] == queue;
    for j := 0 to |nbrs|
      invariant Releasing(K, nbrs, j, goal, sorted, inDegree', queue')
      invariant queue' == queue + Released(nbrs[..j], inDegree)
    {
      ghost var left := inDegree'[nbrs[j]] - 1;
      assert left == inDegree[nbrs[j]] - Occ(nbrs[..j + 1], nbrs[j]) by {
        OccStep(nbrs, j);
      }
      ReleasedSnoc(queue, nbrs, j, inDegree, left);
      inDegree', queue' := ReleaseNeighbour(K, nbrs, j, goal, sorted, inDegree', queue');
    }
    assert nbrs[..|nbrs|] == nbrs;
  }

  lemma ProgressStart(nodes: seq<Node>, edges: seq<Edge>, inDegree: map<string, int>, queue: seq<string>)
    requires Distinct(NodeIds(nodes))
    requires inDegree.Keys == Vertices(nodes, edges)
    requires forall v :: v in inDegree ==> inDegree[v] == Pending(edges, v, {})
    requires queue == InitialQueue(nodes, edges)
    ensures Progress(Vertices(nodes, edges), edges, inDegree, [], queue)
  {
    assert Elems([]) == {};
    forall v | v in TargetSet(edges) ensures Pending(edges, v, {}) > 0 {
      var e :| e in edges && e.target == v;
      var k :| 0 <= k < |edges| && edges[k] == e;
      PendingZero(edges, v, {});
    }
  }

  lemma ProgressEnd(nodes: seq<Node>, edges: seq<Edge>, inDegree: map<string, int>, sorted: seq<string>)
    requires Progress(Vertices(nodes, edges), edges, inDegree, sorted, [])
    ensures Settled(sorted, nodes, edges)
  {
    assert sorted + [] == sorted;
  }

  /** Moving the head of a repeat-free `sorted + queue` from the queue to
      the prefix keeps the list and leaves the prefix repeat-free. */
  lemma DistinctShift(sorted: seq<string>, queue: seq<string>)
    requires queue != [] && Distinct(sorted + queue)
    ensures queue[0] !in sorted
    ensures Distinct(sorted + [queue[0]])
    ensures (sorted + [queue[0]]) + queue[1..] == sorted + queue
  {
    var sorted' := sorted + [queue[0]];
    assert sorted' + queue[1..] == sorted + queue;
    assert forall i :: 0 <= i < |sorted'| ==> (sorted + queue)[i] == sorted'[i];
    assert (sorted + queue)[|sorted|] == queue[0];
    assert forall i :: 0 <= i < |sorted| ==> (sorted + queue)[i] == sorted[i];
  }

  /** A vertex whose sources are all in a prefix that respects the edges
      can be appended to it. */
  lemma RespectsSnoc(sorted: seq<string>, id: string, edges: seq<Edge>)
    requires RespectsEdges(sorted, edges)
    requires forall k :: 0 <= k < |edges| && edges[k].target == id ==> edges[k].source in sorted
    ensures RespectsEdges(sorted + [id], edges)
  {
    var sorted' := sorted + [id];
    forall i, k | 0 <= i < |sorted'| && 0 <= k < |edges| && edges[k].target == sorted'[i]
      ensures edges[k].source in sorted'[..i]
    {
      if i < |sorted| {
        assert sorted'[..i] == sorted[..i];
      } else {
        assert sorted'[..i] == sorted;
      }
    }
  }

  /** Moving the queue's head to the end of the processed prefix keeps it
      free of repeats, within `K` and respecting the edges. */
  lemma ShiftHead(K: set<string>, edges: seq<Edge>, inDegree: map<string, int>, sorted: seq<string>, queue: seq<string>)
    requires queue != [] && Progress(K, edges, inDegree, sorted, queue)
    ensures queue[0] !in Elems(sorted)
    ensures Elems(sorted + [queue[0]]) == Elems(sorted) + {queue[0]}
    ensures (sorted + [queue[0]]) + queue[1..] == sorted + queue
    ensures RespectsEdges(sorted + [queue[0]], edges)
    ensures |sorted + [queue[0]]| <= |K|
  {
    var id := queue[0];
    var sorted' := sorted + [id];
    DistinctShift(sorted, queue);
    assert id in sorted + queue;
    PendingZero(edges, id, Elems(sorted));
    RespectsSnoc(sorted, id, edges);
    assert Elems(sorted') == Elems(sorted) + {id};
    DistinctCard(sorted');
    assert forall x :: x in sorted' ==> x in sorted + queue;
    SubsetCard(Elems(sorted'), K);
  }

  /** One turn of the `while` loop: shift the queue's head onto `sorted`
      and release its neighbours. */
  method Step(ghost K: set<string>, edges: seq<Edge>, adj: map<string, seq<string>>,
              inDegree: map<string, int>, sorted: seq<string>, queue: seq<string>)
      returns (inDegree': map<string, int>, sorted': seq<string>, queue': seq<string>)
    requires queue != []
    requires adj.Keys <= K && TargetSet(edges) <= K
    requires forall s :: s in adj ==> adj[s] == Targets(edges, s)
    requires forall k :: 0 <= k < |edges| ==> edges[k].source in adj
    requires Progress(K, edges, inDegree, sorted, queue)
    ensures Progress(K, edges, inDegree', sorted', queue')
    ensures sorted' == sorted + [queue[0]]
    ensures queue' == queue[1..] + Released(Targets(edges, queue[0]), inDegree)
    ensures sorted + queue <= sorted' + queue'
    ensures |sorted'| <= |K|
  {
    var id := queue[0];
    ShiftHead(K, edges, inDegree, sorted, queue);
    ghost var done := Elems(sorted);
    var rest := queue[1..];
    sorted' := sorted + [id];

    var nbrs := if id in adj then adj[id] else [];
    if id !in adj {
      TargetsOfNonSource(edges, id);
    }
    ghost var goal := map v | v in K :: Pending(edges, v, Elems(sorted'));
    ReleaseCounts0(K, edges, inDegree, done, id, nbrs, goal);
    inDegree', queue' := Release(K, nbrs, inDegree, goal, sorted', rest);
    QueueGrows(sorted, queue, sorted', rest, Released(nbrs, inDegree));
  }

  /** The counts before releasing `id`'s list are the counts after it plus
      the occurrences in the list. */
  lemma ReleaseCounts0(K: set<string>, edges: seq<Edge>, inDegree: map<string, int>, done: set<string>,
                       id: string, nbrs: seq<string>, goal: map<string, nat>)
    requires id !in done && TargetSet(edges) <= K && inDegree.Keys == K
    requires forall v :: v in K ==> inDegree[v] == Pending(edges, v, done)
    requires nbrs == Targets(edges, id)
    requires goal == map v | v in K :: Pending(edges, v, done + {id})
    ensures goal.Keys == K
    ensures forall x :: x in nbrs ==> x in K
    ensures forall v :: v in K ==> inDegree[v] == goal[v] + Occ(nbrs, v)
  {
    TargetsIn(edges, id);
    forall v | v in K
      ensures inDegree[v] == goal[v] + Occ(nbrs, v)
    {
      PendingRelease(edges, v, done, id);
    }
  }

  /** Appending to the queue keeps `sorted + queue` a prefix. */
  lemma QueueGrows(sorted: seq<string>, queue: seq<string>, sorted': seq<string>, rest: seq<string>, more: seq<string>)
    requires sorted' + rest == sorted + queue
    ensures sorted + queue <= sorted' + (rest + more)
  {
    assert sorted' + (rest + more) == (sorted' + rest) + more;
  }

  /** The order the `while` loop processes vertices in, over the vertex
      set `K` and written on the specification tables: shift the queue's
      head onto `sorted` and append what its adjacency list releases from
      the counts left by `sorted`. `fuel` bounds the turns. */
  function Drain(K: set<string>, edges: seq<Edge>, sorted: seq<string>, queue: seq<string>, fuel: nat): (r: seq<string>)
    ensures sorted <= r && |r| <= |sorted| + fuel
    decreases fuel
  {
    if queue == [] || fuel == 0 then sorted
    else
      var deg := map v | v in K :: Pending(edges, v, Elems(sorted));
      Drain(K, edges, sorted + [queue[0]], queue[1..] + Released(Targets(edges, queue[0]), deg), fuel - 1)
  }

  /** The list the sort processes, first in first out from the initial
      queue, with one turn of fuel per vertex. */
  function KahnOrder(nodes: seq<Node>, edges: seq<Edge>): (r: seq<string>)
    ensures |r| <= |Vertices(nodes, edges)|
  {
    Drain(Vertices(nodes, edges), edges, [], InitialQueue(nodes, edges), |Vertices(nodes, edges)|)
  }

  /** One turn of the loop is one turn of `Drain`, while fuel is left. */
  lemma DrainStep(K: set<string>, edges: seq<Edge>, inDegree: map<string, int>, sorted: seq<string>, queue: seq<string>,
                  sorted': seq<string>, queue': seq<string>)
    requires queue != [] && Progress(K, edges, inDegree, sorted, queue)
    requires sorted' == sorted + [queue[0]] && |sorted'| <= |K|
    requires queue' == queue[1..] + Released(Targets(edges, queue[0]), inDegree)
    ensures Drain(K, edges, sorted, queue, |K| - |sorted|) == Drain(K, edges, sorted', queue', |K| - |sorted'|)
  {
    assert inDegree == map v | v in K :: Pending(edges, v, Elems(sorted));
  }

  /** The `while` loop: shift the queue's head onto `sorted` and release
      its neighbours until the queue is empty. The list it ends with is
      the one `Drain` computes, starts with the queue it was given, and
      leaves no vertex with a zero count unprocessed. */
  method Drive(ghost K: set<string>, edges: seq<Edge>, adj: map<string, seq<string>>,
               inDegree: map<string, int>, queue: seq<string>)
      returns (inDegree': map<string, int>, sorted: seq<string>)
    requires adj.Keys <= K && TargetSet(edges) <= K
    requires forall s :: s in adj ==> adj[s] == Targets(edges, s)
    requires forall k :: 0 <= k < |edges| ==> edges[k].source in adj
    requires Progress(K, edges, inDegree, [], queue)
    ensures Progress(K, edges, inDegree', sorted, [])
    ensures queue <= sorted
    ensures sorted == Drain(K, edges, [], queue, |K|)
  {
    inDegree' := inDegree;
    sorted := [];
    var q := queue;
    assert [] + q == q;
    while |q| > 0
      invariant Progress(K, edges, inDegree', sorted, q)
      invariant queue <= sorted + q
      invariant |sorted| <= |K|
      invariant Drain(K, edges, sorted, q, |K| - |sorted|) == Drain(K, edges, [], queue, |K|)
      decreases |K| - |sorted|
    {
      ghost var degree0, sorted0, queue0 := inDegree', sorted, q;
      inDegree', sorted, q := Step(K, edges, adj, inDegree', sorted, q);
      DrainStep(K, edges, degree0, sorted0, queue0, sorted, q);
    }
    assert sorted + [] == sorted;
  }

  /** `kahnTopoSort(nodes, edges)`. The ghost `processed` is the list the
      loop builds before the final length check. An edge whose source is
      not a node makes the table build fail, as `adj[e.source].push` does. */
  method KahnTopoSort(nodes: seq<Node>, edges: seq<Edge>)
      returns (r: Result<seq<string>, SortError>, ghost processed: seq<string>)
    requires Distinct(NodeIds(nodes))
    ensures r == Err(MissingSource) <==> !SourcesKnown(nodes, edges)
    ensures SourcesKnown(nodes, edges) ==>
      && Settled(processed, nodes, edges)
      && InitialQueue(nodes, edges) <= processed
      && processed == KahnOrder(nodes, edges)
      && r == (if |processed| == |nodes| then Ok(processed) else Err(CycleDetected))
  {
    var ok, inDegree, adj := BuildTables(nodes, edges);
    if !ok {
      return Err(MissingSource), [];
    }
    var queue := ZeroInDegreeIds(nodes, edges, inDegree);
    ProgressStart(nodes, edges, inDegree, queue);
    var sorted;
    inDegree, sorted := Drive(Vertices(nodes, edges), edges, adj, inDegree, queue);
    processed := sorted;
    ProgressEnd(nodes, edges, inDegree, sorted);
    if |sorted| != |nodes| {
      r := Err(CycleDetected);
    } else {
      r := Ok(sorted);
    }
  }

  // ---------------------------------------------------------------------
  // What the settled state decides

  /** Every vertex of an order that respects the edges is processed: the
      loop cannot stop before such a vertex. */
  lemma {:induction false} SettledCovers(p: seq<string>, q: seq<string>, nodes: seq<Node>, edges: seq<Edge>, n: nat)
    requires Settled(p, nodes, edges) && RespectsEdges(q, edges) && n <= |q|
    requires forall x :: x in q ==> x in Vertices(nodes, edges)
    ensures forall i :: 0 <= i < n ==> q[i] in p
  {
    if n > 0 {
      SettledCovers(p, q, nodes, edges, n - 1);
      var v := q[n - 1];
      forall k | 0 <= k < |edges| && edges[k].target == v
        ensures edges[k].source in Elems(p)
      {
        assert edges[k].source in q[..n - 1];
        var j :| 0 <= j < n - 1 && q[j] == edges[k].source;
      }
      PendingZero(edges, v, Elems(p));
    }
  }

  /** The processed set does not depend on the run: any two settled lists
      hold the same vertices. */
  lemma SettledUnique(p1: seq<string>, p2: seq<string>, nodes: seq<Node>, edges: seq<Edge>)
    requires Settled(p1, nodes, edges) && Settled(p2, nodes, edges)
    ensures Elems(p1) == Elems(p2) && |p1| == |p2|
  {
    SettledCovers(p1, p2, nodes, edges, |p2|);
    SettledCovers(p2, p1, nodes, edges, |p1|);
    DistinctCard(p1);
    DistinctCard(p2);
  }

  lemma SameCardSubset(a: set<string>, b: set<string>)
    requires a <= b && |a| == |b|
    ensures a == b
  {
    assert b == a + (b - a);
    assert a * (b - a) == {};
    assert |b - a| == 0;
  }

  lemma VerticesAreNodes(nodes: seq<Node>, edges: seq<Edge>)
    requires TargetsKnown(nodes, edges)
    ensures Vertices(nodes, edges) == IdSet(nodes)
  {
    forall x | x in TargetSet(edges) ensures x in IdSet(nodes) {
      var e :| e in edges && e.target == x;
      var k :| 0 <= k < |edges| && edges[k] == e;
    }
  }

  /** When every edge ends at a node, a settled list as long as the node
      list is a topological order. */
  lemma SettledFullIsOrder(p: seq<string>, nodes: seq<Node>, edges: seq<Edge>)
    requires Settled(p, nodes, edges) && TargetsKnown(nodes, edges) && Distinct(NodeIds(nodes))
    requires |p| == |nodes|
    ensures IsTopologicalOrder(p, nodes, edges)
  {
    VerticesAreNodes(nodes, edges);
    DistinctCard(p);
    DistinctCard(NodeIds(nodes));
    SameCardSubset(Elems(p), IdSet(nodes));
  }

  /** When every edge ends at a node, a topological order forces the
      settled list to cover every node. */
  lemma OrderForcesFull(p: seq<string>, q: seq<string>, nodes: seq<Node>, edges: seq<Edge>)
    requires Settled(p, nodes, edges) && TargetsKnown(nodes, edges) && Distinct(NodeIds(nodes))
    requires IsTopologicalOrder(q, nodes, edges)
    ensures |p| == |nodes|
  {
    VerticesAreNodes(nodes, edges);
    SettledCovers(p, q, nodes, edges, |q|);
    assert Elems(p) == IdSet(nodes);
    DistinctCard(p);
    DistinctCard(NodeIds(nodes));
  }

  /** The remaining in-degree over a two-edge list. */
  lemma PendingPair(e1: Edge, e2: Edge, v: string, done: set<string>)
    ensures Pending([e1, e2], v, done) ==
      (if e1.target == v && e1.source !in done then 1 else 0) + (if e2.target == v && e2.source !in done then 1 else 0)
  {
    var s := [e1, e2];
    assert s[..|s| - 1] == [e1] && s[|s| - 1] == e2;
    assert Pending(s, v, done) == Pending([e1], v, done) + (if e2.target == v && e2.source !in done then 1 else 0);
    assert [e1][..0] == [] && [e1][0] == e1;
    assert Pending([e1], v, done) == Pending([], v, done) + (if e1.target == v && e1.source !in done then 1 else 0);
  }

  // ---------------------------------------------------------------------
  // Edges into ids that are not nodes

  lemma RespectsAt(q: seq<string>, edges: seq<Edge>, i: nat, k: nat)
    requires RespectsEdges(q, edges) && i < |q| && k < |edges|
    ensures edges[k].target == q[i] ==> exists j :: 0 <= j < i && q[j] == edges[k].source
  {
    if edges[k].target == q[i] {
      assert edges[k].source in q[..i];
      var j :| 0 <= j < i && q[..i][j] == edges[k].source;
      assert q[j] == q[..i][j];
    }
  }

  /** An order without repeats that respects a self-loop omits its vertex. */
  lemma SelfLoopExcluded(q: seq<string>, edges: seq<Edge>, k: nat)
    requires k < |edges| && edges[k].source == edges[k].target
    requires Distinct(q) && RespectsEdges(q, edges)
    ensures edges[k].target !in q
  {
    forall i | 0 <= i < |q| ensures q[i] != edges[k].target {
      RespectsAt(q, edges, i, k);
    }
  }

  function HiddenCycleNodes(): seq<Node>
  {
    [Node("A", "httpNode", Position(0, 0), [], None), Node("B", "httpNode", Position(0, 0), [], None)]
  }

  function HiddenCycleEdges(): seq<Edge>
  {
    [Edge("e1", "A", "X"), Edge("e2", "B", "B")]
  }

  /** With an edge into the id "X" that no node carries, the loop
      processes "A" and "X" but never the self-looped "B": the list is as
      long as the node list, so the sort returns it although it names a
      non-node and the flow has a cycle. */
  lemma DanglingTargetHidesCycle(p: seq<string>)
    requires Settled(p, HiddenCycleNodes(), HiddenCycleEdges())
    ensures SourcesKnown(HiddenCycleNodes(), HiddenCycleEdges())
    ensures |p| == |HiddenCycleNodes()| && "X" in p && "X" !in IdSet(HiddenCycleNodes())
    ensures forall q :: !IsTopologicalOrder(q, HiddenCycleNodes(), HiddenCycleEdges())
  {
    var nodes, edges := HiddenCycleNodes(), HiddenCycleEdges();
    assert NodeIds(nodes) == ["A", "B"];
    assert IdSet(nodes) == {"A", "B"};
    assert TargetSet(edges) == {"X", "B"} by {
      assert edges[0] in edges && edges[1] in edges;
    }
    SelfLoopExcluded(p, edges, 1);
    PendingPair(edges[0], edges[1], "A", Elems(p));
    assert "A" in p;
    PendingPair(edges[0], edges[1], "X", Elems(p));
    assert Elems(p) == {"A", "X"};
    DistinctCard(p);
    forall q ensures !IsTopologicalOrder(q, nodes, edges) {
      if Distinct(q) && RespectsEdges(q, edges) {
        SelfLoopExcluded(q, edges, 1);
      }
    }
  }

  /** With the single node "A" and an edge to a missing "X", the loop
      processes two ids for one node and reports a cycle, although ["A"]
      orders the flow. */
  lemma DanglingTargetFalseCycle(p: seq<string>)
    requires Settled(p, [Node("A", "httpNode", Position(0, 0), [], None)], [Edge("e1", "A", "X")])
    ensures |p| == 2
    ensures IsTopologicalOrder(["A"], [Node("A", "httpNode", Position(0, 0), [], None)], [Edge("e1", "A", "X")])
  {
    var nodes, edges := [Node("A", "httpNode", Position(0, 0), [], None)], [Edge("e1", "A", "X")];
    assert NodeIds(nodes) == ["A"];
    assert IdSet(nodes) == {"A"};
    assert TargetSet(edges) == {"X"} by {
      assert edges[0] in edges;
    }
    assert edges[..0] == [];
    assert Pending(edges, "A", Elems(p)) == 0;
    assert "A" in p;
    assert Pending(edges, "X", Elems(p)) == 0;
    assert Elems(p) == {"A", "X"};
    DistinctCard(p);
    assert Elems(["A"]) == {"A"};
  }

  /** The edges the corrected sort keeps: those that end at a node. */
  function KeptEdges(nodes: seq<Node>, edges: seq<Edge>): (r: seq<Edge>)
    ensures forall e :: e in r <==> e in edges && e.target in IdSet(nodes)
    ensures TargetsKnown(nodes, r)
  {
    var ids := IdSet(nodes);
    var r := Filter(edges, (e: Edge) => e.target in ids);
    assert forall k :: 0 <= k < |r| ==> r[k] in r;
    r
  }

  /** For an order of the nodes, dropping edges into non-nodes does not
      change which edges it must respect. */
  lemma RespectsKeptEdges(q: seq<string>, nodes: seq<Node>, edges: seq<Edge>)
    requires forall x :: x in q ==> x in IdSet(nodes)
    ensures RespectsEdges(q, KeptEdges(nodes, edges)) <==> RespectsEdges(q, edges)
  {
    var kept := KeptEdges(nodes, edges);
    if RespectsEdges(q, kept) {
      forall i, k | 0 <= i < |q| && 0 <= k < |edges| && edges[k].target == q[i]
        ensures edges[k].source in q[..i]
      {
        assert edges[k] in kept;
        var k' :| 0 <= k' < |kept| && kept[k'] == edges[k];
      }
    }
    if RespectsEdges(q, edges) {
      forall i, k | 0 <= i < |q| && 0 <= k < |kept| && kept[k].target == q[i]
        ensures kept[k].source in q[..i]
      {
        assert kept[k] in edges;
        var k' :| 0 <= k' < |edges| && edges[k'] == kept[k];
      }
    }
  }

  /** `kahnTopoSort` run on the edges that end at nodes: its result is a
      topological order of the nodes whenever it returns, and it returns
      whenever the flow has one. */
  method KahnTopoSortChecked(nodes: seq<Node>, edges: seq<Edge>) returns (r: Result<seq<string>, SortError>)
    requires Distinct(NodeIds(nodes))
    ensures r == Err(MissingSource) <==> !SourcesKnown(nodes, KeptEdges(nodes, edges))
    ensures r.Ok? ==> IsTopologicalOrder(r.value, nodes, edges) && r.value == KahnOrder(nodes, KeptEdges(nodes, edges))
    ensures SourcesKnown(nodes, KeptEdges(nodes, edges)) ==>
      forall q :: IsTopologicalOrder(q, nodes, edges) ==> r.Ok?
  {
    var kept := KeptEdges(nodes, edges);
    ghost var p;
    r, p := KahnTopoSort(nodes, kept);
    if SourcesKnown(nodes, kept) {
      if r.Ok? {
        SettledFullIsOrder(p, nodes, kept);
        RespectsKeptEdges(r.value, nodes, edges);
      }
      forall q | IsTopologicalOrder(q, nodes, edges) ensures r.Ok? {
        RespectsKeptEdges(q, nodes, edges);
        OrderForcesFull(p, q, nodes, kept);
      }
    }
  }

  /** On a well-formed flow the sort's settled list decides everything:
      every edge starts and ends at a node, a full list is a topological
      order, and a flow that has a topological order gets a full list. So
      the sort returns exactly when an order exists, and returns one. */
  lemma WellFormedSettled(p: seq<string>, nodes: seq<Node>, edges: seq<Edge>)
    requires WellFormed(nodes, edges)
    ensures SourcesKnown(nodes, edges) && TargetsKnown(nodes, edges)
    ensures Settled(p, nodes, edges) && |p| == |nodes| ==> IsTopologicalOrder(p, nodes, edges)
    ensures Settled(p, nodes, edges) ==> forall q :: IsTopologicalOrder(q, nodes, edges) ==> |p| == |nodes|
  {
    forall k | 0 <= k < |edges| ensures edges[k].source in IdSet(nodes) && edges[k].target in IdSet(nodes) {
      assert edges[k] in edges;
    }
    if Settled(p, nodes, edges) {
      if |p| == |nodes| {
        SettledFullIsOrder(p, nodes, edges);
      }
      forall q | IsTopologicalOrder(q, nodes, edges) ensures |p| == |nodes| {
        OrderForcesFull(p, q, nodes, edges);
      }
    }
  }
}
