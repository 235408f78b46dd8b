/** Bounded breadth-first path search (platform/api/src/handlers.js:428-450).

    The table is a sequence of live relationships; the query returns those touching a node, at most
    200 of them, in table order. */
module GraphPaths {
  import opened Options

  datatype Rel = Rel(id: string, fromId: string, toId: string, kind: string, directed: bool,
                     confidence: Option<real>, effectiveFrom: Option<int>)

  datatype Search = Search(rels: seq<Rel>, source: string, target: string, maxHops: nat,
                           kinds: Option<set<string>>, minConfidence: real, asOf: Option<int>)

  /** A queued node, the nodes before it and the relationships walked to it. */
  datatype Item = Item(node: string, nodes: seq<string>, edges: seq<Rel>)

  datatype Path = Path(nodes: seq<string>, edges: seq<Rel>)

  const ROW_LIMIT := 200

  const ENOUGH := 5

  predicate Touches(r: Rel, node: string) {
    r.fromId == node || r.toId == node
  }

  function Touching(rels: seq<Rel>, node: string): (out: seq<Rel>)
    ensures forall r :: r in out <==> r in rels && Touches(r, node)
  {
    if rels == [] then []
    else (if Touches(rels[0], node) then [rels[0]] else []) + Touching(rels[1..], node)
  }

  function Results(q: Search, node: string): (out: seq<Rel>)
    ensures forall r :: r in out ==> r in q.rels && Touches(r, node)
  {
    var all := Touching(q.rels, node);
    if |all| <= ROW_LIMIT then all else all[..ROW_LIMIT]
  }

  /** The type, confidence and date filters. */
  predicate Passes(q: Search, r: Rel) {
    && (q.kinds.Some? ==> r.kind in q.kinds.value)
    && (if r.confidence.Some? then r.confidence.value else 1.0) >= q.minConfidence
    && !(q.asOf.Some? && r.effectiveFrom.Some? && r.effectiveFrom.value > q.asOf.value)
  }

  /** Where a relationship leads from a node, if it may be walked that way. */
  function Hop(q: Search, r: Rel, node: string): Option<string> {
    if !Touches(r, node) || !Passes(q, r) || (r.directed && r.fromId != node) then None
    else Some(if r.fromId == node then r.toId else r.fromId)
  }

  /** A relationship leads from u to v exactly when it joins them, in that direction or in none, is of a type asked
      for, is as certain as asked for, where one of unknown confidence is certain, and had taken effect. */
  lemma HopExact(q: Search, r: Rel, u: string, v: string)
    ensures Hop(q, r, u) == Some(v) <==>
              && ((r.fromId == u && r.toId == v) || (!r.directed && r.toId == u && r.fromId == v && u != v))
              && (q.kinds == None || r.kind in q.kinds.value)
              && (match r.confidence case Some(x) => x >= q.minConfidence case None => q.minConfidence <= 1.0)
              && (match (q.asOf, r.effectiveFrom) case (Some(t), Some(from)) => from <= t case _ => true)
  {
  }

  /** A query returns relationships of the node, all of them or the first 200. */
  lemma ResultsExact(q: Search, node: string)
    ensures forall r :: r in Results(q, node) ==> r in q.rels && (r.fromId == node || r.toId == node)
    ensures |Results(q, node)| <= 200
    ensures |Results(q, node)| < 200 ==>
              forall r :: r in q.rels && (r.fromId == node || r.toId == node) ==> r in Results(q, node)
  {
  }

  /** A walk from the source along admissible relationships. */
  ghost predicate IsWalk(q: Search, nodes: seq<string>, edges: seq<Rel>) {
    && |nodes| == |edges| + 1 && nodes[0] == q.source
    && forall i :: 0 <= i < |edges| ==> edges[i] in q.rels && Hop(q, edges[i], nodes[i]) == Some(nodes[i + 1])
  }

  ghost predicate Arrives(q: Search, nodes: seq<string>, edges: seq<Rel>) {
    IsWalk(q, nodes, edges) && edges != [] && nodes[|edges|] == q.target
  }

  ghost predicate NoShorter(q: Search, n: nat) {
    forall nodes, edges :: Arrives(q, nodes, edges) ==> |edges| >= n
  }

  /** Some walk arrives within the bound. */
  ghost predicate Reachable(q: Search) {
    exists nodes, edges :: Arrives(q, nodes, edges) && |edges| <= q.maxHops
  }

  /** No node is passed twice; a search for a way back to its own source ends where it began. */
  ghost predicate Distinct(q: Search, nodes: seq<string>) {
    forall i, j :: 0 <= i < j < |nodes| ==>
      nodes[i] != nodes[j] || (q.source == q.target && i == 0 && j == |nodes| - 1)
  }

  ghost predicate PathOk(q: Search, p: Path) {
    Arrives(q, p.nodes, p.edges) && |p.edges| <= q.maxHops && Distinct(q, p.nodes)
  }

  /** No query is cut short by the row limit. */
  ghost predicate RowsFit(q: Search) {
    forall node :: |Touching(q.rels, node)| <= ROW_LIMIT
  }

  /* ---------- invariants ---------- */

  function Trail(it: Item): seq<string> {
    it.nodes + [it.node]
  }

  /** The k-th node of a trail was first visited at depth k, and after the source none is the target. */
  ghost predicate OnSchedule(q: Search, visited: map<string, nat>, trail: seq<string>) {
    forall k :: 0 <= k < |trail| ==> trail[k] in visited && visited[trail[k]] == k && (k > 0 ==> trail[k] != q.target)
  }

  ghost predicate ItemOk(q: Search, visited: map<string, nat>, it: Item) {
    IsWalk(q, Trail(it), it.edges) && OnSchedule(q, visited, Trail(it))
  }

  ghost predicate QueueOk(q: Search, visited: map<string, nat>, queue: seq<Item>, depth: nat) {
    && (forall i :: 0 <= i < |queue| ==> ItemOk(q, visited, queue[i]))
    && (forall i, j :: 0 <= i < j < |queue| ==> |queue[i].edges| <= |queue[j].edges|)
    && (forall i :: 0 <= i < |queue| ==> depth <= |queue[i].edges| <= depth + 1)
  }

  /** Every visited node has been expanded or waits in the queue. */
  ghost predicate Tracked(visited: map<string, nat>, queue: seq<Item>, expanded: set<string>) {
    forall v :: v in visited ==> v in expanded || exists i :: 0 <= i < |queue| && queue[i].node == v
  }

  /** What one expanded relationship left behind. */
  ghost predicate Followed(q: Search, visited: map<string, nat>, paths: seq<Path>, u: string, r: Rel)
    requires u in visited
  {
    Hop(q, r, u).Some? ==>
      var n := Hop(q, r, u).value;
      if n == q.target then paths != [] else n in visited && visited[n] <= visited[u] + 1
  }

  ghost predicate Closed(q: Search, visited: map<string, nat>, expanded: set<string>, paths: seq<Path>) {
    forall u, r {:trigger Followed(q, visited, paths, u, r)} ::
      u in expanded && u in visited && visited[u] < q.maxHops && r in Results(q, u) ==>
        Followed(q, visited, paths, u, r)
  }

  ghost predicate PathsOk(q: Search, paths: seq<Path>) {
    && (forall i :: 0 <= i < |paths| ==> PathOk(q, paths[i]))
    && (RowsFit(q) && paths != [] ==> NoShorter(q, |paths[0].edges|))
  }

  /** Until a path is found, a walk through expanded nodes stays on visited nodes, no later than its
      own length, and never reaches the target. */
  lemma {:induction false} WalkStaysVisited(q: Search, visited: map<string, nat>, expanded: set<string>, depth: nat,
                                            nodes: seq<string>, edges: seq<Rel>, i: nat)
    requires RowsFit(q) && Closed(q, visited, expanded, []) && depth <= q.maxHops
    requires q.source in visited && visited[q.source] == 0
    requires forall v :: v in visited && visited[v] < depth ==> v in expanded
    requires IsWalk(q, nodes, edges) && i <= |edges| && i <= depth
    ensures nodes[i] in visited && visited[nodes[i]] <= i && (i > 0 ==> nodes[i] != q.target)
  {
    if i > 0 {
      WalkStaysVisited(q, visited, expanded, depth, nodes, edges, i - 1);
      var u, r := nodes[i - 1], edges[i - 1];
      assert |Touching(q.rels, u)| <= ROW_LIMIT;
      assert r in q.rels && Hop(q, r, u) == Some(nodes[i - 1 + 1]);
      assert r in Touching(q.rels, u);
      assert Results(q, u) == Touching(q.rels, u);
      assert Followed(q, visited, [], u, r);
    }
  }

  /** Nothing within reach of the expanded nodes arrives. */
  lemma NothingArrives(q: Search, visited: map<string, nat>, expanded: set<string>, depth: nat)
    requires RowsFit(q) && Closed(q, visited, expanded, []) && depth <= q.maxHops
    requires q.source in visited && visited[q.source] == 0
    requires forall v :: v in visited && visited[v] < depth ==> v in expanded
    ensures NoShorter(q, depth + 1)
  {
    forall nodes, edges | Arrives(q, nodes, edges) ensures |edges| >= depth + 1 {
      if |edges| <= depth {
        WalkStaysVisited(q, visited, expanded, depth, nodes, edges, |edges|);
      }
    }
  }

  lemma WalkSnoc(q: Search, it: Item, r: Rel, n: string)
    requires IsWalk(q, Trail(it), it.edges) && r in q.rels && Hop(q, r, it.node) == Some(n)
    ensures IsWalk(q, Trail(it) + [n], it.edges + [r])
  {
    var nodes, edges := Trail(it) + [n], it.edges + [r];
    forall i | 0 <= i < |edges| ensures edges[i] in q.rels && Hop(q, edges[i], nodes[i]) == Some(nodes[i + 1]) {
      if i < |it.edges| { assert edges[i] == it.edges[i]; }
    }
  }

  lemma ScheduleDistinct(q: Search, visited: map<string, nat>, trail: seq<string>)
    requires OnSchedule(q, visited, trail) && trail != [] && trail[0] == q.source
    ensures Distinct(q, trail + [q.target])
  {
    var nodes := trail + [q.target];
    forall i, j | 0 <= i < j < |nodes| && !(q.source == q.target && i == 0 && j == |nodes| - 1)
      ensures nodes[i] != nodes[j]
    {
      if j < |trail| { assert visited[trail[i]] == i && visited[trail[j]] == j; }
    }
  }

  /** Visiting a new node disturbs no trail. */
  lemma VisitKeeps(q: Search, visited: map<string, nat>, it: Item, n: string, d: nat)
    requires ItemOk(q, visited, it) && n !in visited
    ensures ItemOk(q, visited[n := d], it)
  {
  }

  /* ---------- the search ---------- */

  /** Follows one relationship from the node being expanded. */
  method Follow(q: Search, it: Item, r: Rel, visited: map<string, nat>, queue: seq<Item>, paths: seq<Path>)
    returns (visited': map<string, nat>, queue': seq<Item>, paths': seq<Path>)
    requires ItemOk(q, visited, it) && r in q.rels && Touches(r, it.node) && |it.edges| < q.maxHops
    requires QueueOk(q, visited, queue, |it.edges|)
    requires forall v :: v in visited ==> visited[v] <= |it.edges| + 1
    requires PathsOk(q, paths) && (RowsFit(q) && paths == [] ==> NoShorter(q, |it.edges| + 1))
    ensures ItemOk(q, visited', it) && QueueOk(q, visited', queue', |it.edges|)
    ensures forall v :: v in visited' ==> visited'[v] <= |it.edges| + 1
    ensures PathsOk(q, paths') && (paths' == [] ==> paths == []) && (paths != [] ==> paths' != [])
    ensures forall v :: v in visited ==> v in visited' && visited'[v] == visited[v]
    ensures it.node in visited' && Followed(q, visited', paths', it.node, r)
    ensures (visited' == visited && queue' == queue)
         || (exists n :: n !in visited && n in Neighbours(q) && visited' == visited[n := |it.edges| + 1]
                         && |queue'| == |queue| + 1 && queue' == queue + [queue'[|queue|]] && queue'[|queue|].node == n)
  {
    visited', queue', paths' := visited, queue, paths;
    assert Trail(it)[|it.edges|] == it.node;
    if !Passes(q, r) { return; }
    var next := if r.fromId == it.node then r.toId else r.fromId;
    if r.directed && r.fromId != it.node { return; }
    WalkSnoc(q, it, r, next);
    var e2 := it.edges + [r];
    var n2 := it.nodes + [it.node];
    if next == q.target {
      ScheduleDistinct(q, visited, Trail(it));
      paths' := paths + [Path(n2 + [next], e2)];
      assert PathOk(q, Path(n2 + [next], e2));
      return;
    }
    if next in visited && visited[next] <= |e2| { return; }
    visited' := visited[next := |e2|];
    queue' := queue + [Item(next, n2, e2)];
    VisitKeeps(q, visited, it, next, |e2|);
    forall i | 0 <= i < |queue| ensures ItemOk(q, visited', queue[i]) { VisitKeeps(q, visited, queue[i], next, |e2|); }
    assert ItemOk(q, visited', Item(next, n2, e2));
  }

  /** The nodes a search can ever visit. */
  function Neighbours(q: Search): set<string> {
    (set r | r in q.rels :: r.fromId) + (set r | r in q.rels :: r.toId) + {q.source}
  }

  /** Expands a queued node: follows each row the query returns. */
  method Expand(q: Search, it: Item, visited: map<string, nat>, queue: seq<Item>, paths: seq<Path>)
    returns (visited': map<string, nat>, queue': seq<Item>, paths': seq<Path>)
    requires ItemOk(q, visited, it) && |it.edges| < q.maxHops && visited.Keys <= Neighbours(q)
    requires QueueOk(q, visited, queue, |it.edges|)
    requires forall v :: v in visited ==> visited[v] <= |it.edges| + 1
    requires PathsOk(q, paths) && (RowsFit(q) && paths == [] ==> NoShorter(q, |it.edges| + 1))
    ensures QueueOk(q, visited', queue', |it.edges|)
    ensures forall v :: v in visited' ==> visited'[v] <= |it.edges| + 1
    ensures PathsOk(q, paths') && (paths != [] ==> paths' != [])
    ensures it.node in visited' && forall r :: r in Results(q, it.node) ==> Followed(q, visited', paths', it.node, r)
    ensures Extends(q, visited, queue, visited', queue', |it.edges| + 1)
  {
    hide PathsOk, QueueOk, ItemOk, NoShorter, Results;
    visited', queue', paths' := visited, queue, paths;
    var rows := Results(q, it.node);
    RowsTouch(q, it.node);
    ItemNode(q, visited, it);
    var i := 0;
    while i < |rows|
      invariant 0 <= i <= |rows|
      invariant ItemOk(q, visited', it) && QueueOk(q, visited', queue', |it.edges|)
      invariant forall v :: v in visited' ==> visited'[v] <= |it.edges| + 1
      invariant PathsOk(q, paths') && (paths' == [] ==> paths == []) && (paths != [] ==> paths' != [])
      invariant it.node in visited'
      invariant forall k :: 0 <= k < i ==> Followed(q, visited', paths', it.node, rows[k])
      invariant Extends(q, visited, queue, visited', queue', |it.edges| + 1)
    {
      ghost var v0, q0, p0 := visited', queue', paths';
      assert rows[i] in rows;
      visited', queue', paths' := Follow(q, it, rows[i], visited', queue', paths');
      forall k | 0 <= k < i ensures Followed(q, visited', paths', it.node, rows[k]) {
        assert Followed(q, v0, p0, it.node, rows[k]);
      }
      ExtendsStep(q, visited, queue, v0, q0, visited', queue', |it.edges| + 1);
      i := i + 1;
    }
  }

  lemma RowsTouch(q: Search, node: string)
    ensures forall r :: r in Results(q, node) ==> r in q.rels && Touches(r, node)
  {
  }

  lemma ItemNode(q: Search, visited: map<string, nat>, it: Item)
    requires ItemOk(q, visited, it)
    ensures it.node in visited && visited[it.node] == |it.edges|
  {
    assert Trail(it)[|it.edges|] == it.node;
  }

  /** Newly visited nodes were queued at the new depth, and nothing else changed. */
  ghost predicate Extends(q: Search, v0: map<string, nat>, q0: seq<Item>, v1: map<string, nat>, q1: seq<Item>, d: nat) {
    && v0.Keys <= v1.Keys <= v0.Keys + Neighbours(q)
    && (forall v :: v in v0 ==> v1[v] == v0[v])
    && q0 <= q1
    && (forall v :: v in v1 && v !in v0 ==> v1[v] == d && exists i :: |q0| <= i < |q1| && q1[i].node == v)
    && (v0.Keys == v1.Keys ==> q0 == q1)
  }

  lemma ExtendsStep(q: Search, v0: map<string, nat>, q0: seq<Item>, v1: map<string, nat>, q1: seq<Item>,
                    v2: map<string, nat>, q2: seq<Item>, d: nat)
    requires Extends(q, v0, q0, v1, q1, d)
    requires (v2 == v1 && q2 == q1)
          || (exists n :: n !in v1 && n in Neighbours(q) && v2 == v1[n := d]
                          && |q2| == |q1| + 1 && q2 == q1 + [q2[|q1|]] && q2[|q1|].node == n)
    ensures Extends(q, v0, q0, v2, q2, d)
  {
    if !(v2 == v1 && q2 == q1) {
      var n :| n !in v1 && n in Neighbours(q) && v2 == v1[n := d]
                && |q2| == |q1| + 1 && q2 == q1 + [q2[|q1|]] && q2[|q1|].node == n;
      forall v | v in v2 && v !in v0 ensures v2[v] == d && exists i :: |q0| <= i < |q2| && q2[i].node == v {
        if v == n {
          assert q2[|q1|].node == v;
        } else {
          var i :| |q0| <= i < |q1| && q1[i].node == v;
          assert q2[i].node == v;
        }
      }
      assert n in v2.Keys && n !in v0.Keys;
    }
  }

  /** The loop invariant: everything known between two expansions. */
  ghost predicate Searching(q: Search, visited: map<string, nat>, queue: seq<Item>, expanded: set<string>,
                            paths: seq<Path>, depth: nat) {
    && q.source in visited && visited[q.source] == 0 && visited.Keys <= Neighbours(q)
    && QueueOk(q, visited, queue, depth) && Tracked(visited, queue, expanded)
    && (forall v :: v in visited ==> visited[v] <= depth + 1)
    && Closed(q, visited, expanded, paths) && expanded <= visited.Keys
    && PathsOk(q, paths)
  }

  lemma NodesExpanded(q: Search, visited: map<string, nat>, queue: seq<Item>, expanded: set<string>, d: nat)
    requires Tracked(visited, queue, expanded) && forall i :: 0 <= i < |queue| ==>
               ItemOk(q, visited, queue[i]) && |queue[i].edges| >= d
    ensures forall v :: v in visited && visited[v] < d ==> v in expanded
  {
    forall v | v in visited && visited[v] < d ensures v in expanded {
      if v !in expanded {
        var i :| 0 <= i < |queue| && queue[i].node == v;
        ItemNode(q, visited, queue[i]);
      }
    }
  }

  lemma TrackedAfter(q: Search, v0: map<string, nat>, queue: seq<Item>, expanded: set<string>,
                     v1: map<string, nat>, q1: seq<Item>, d: nat)
    requires queue != [] && Tracked(v0, queue, expanded) && Extends(q, v0, queue[1..], v1, q1, d)
    ensures Tracked(v1, q1, expanded + {queue[0].node})
  {
    forall v | v in v1 && v !in expanded + {queue[0].node} ensures exists i :: 0 <= i < |q1| && q1[i].node == v {
      if v in v0 {
        var i :| 0 <= i < |queue| && queue[i].node == v;
        assert queue[1..][i - 1] == queue[i] && q1[i - 1] == queue[1..][i - 1];
      }
    }
  }

  lemma ClosedAfter(q: Search, v0: map<string, nat>, q0: seq<Item>, expanded: set<string>, p0: seq<Path>,
                    u: string, v1: map<string, nat>, q1: seq<Item>, p1: seq<Path>, d: nat)
    requires Closed(q, v0, expanded, p0) && Extends(q, v0, q0, v1, q1, d) && expanded <= v0.Keys
    requires u in v1 && (p0 != [] ==> p1 != [])
    requires v1[u] < q.maxHops ==> forall r :: r in Results(q, u) ==> Followed(q, v1, p1, u, r)
    ensures Closed(q, v1, expanded + {u}, p1)
  {
    hide Results;
    forall x, r | x in expanded + {u} && x in v1 && v1[x] < q.maxHops && r in Results(q, x)
      ensures Followed(q, v1, p1, x, r)
    {
      if x != u { assert Followed(q, v0, p0, x, r); }
    }
  }

  lemma QueueTail(q: Search, visited: map<string, nat>, queue: seq<Item>, depth: nat)
    requires queue != [] && QueueOk(q, visited, queue, depth)
    ensures ItemOk(q, visited, queue[0]) && QueueOk(q, visited, queue[1..], |queue[0].edges|)
    ensures depth <= |queue[0].edges|
  {
  }

  lemma SearchStarts(q: Search)
    ensures Searching(q, map[q.source := 0], [Item(q.source, [], [])], {}, [], 0)
  {
    assert Trail(Item(q.source, [], [])) == [q.source];
    assert [Item(q.source, [], [])][0].node == q.source;
  }

  /** Before the first queued node is expanded, nothing arrives in fewer steps than it would take. */
  lemma BeforeExpand(q: Search, visited: map<string, nat>, queue: seq<Item>, expanded: set<string>,
                     paths: seq<Path>, depth: nat)
    requires Searching(q, visited, queue, expanded, paths, depth) && queue != []
    ensures ItemOk(q, visited, queue[0]) && visited.Keys <= Neighbours(q)
    ensures QueueOk(q, visited, queue[1..], |queue[0].edges|) && PathsOk(q, paths)
    ensures forall v :: v in visited ==> visited[v] <= |queue[0].edges| + 1
    ensures RowsFit(q) && paths == [] && |queue[0].edges| <= q.maxHops ==> NoShorter(q, |queue[0].edges| + 1)
  {
    hide PathsOk, ItemOk, Closed, RowsFit, NoShorter;
    var it := queue[0];
    QueueTail(q, visited, queue, depth);
    ItemNode(q, visited, it);
    if paths == [] && RowsFit(q) && |it.edges| <= q.maxHops {
      NodesExpanded(q, visited, queue, expanded, |it.edges|);
      NothingArrives(q, visited, expanded, |it.edges|);
    }
  }

  /** One turn of the loop keeps the invariant. */
  lemma AfterTurn(q: Search, v0: map<string, nat>, q0: seq<Item>, expanded: set<string>, p0: seq<Path>, depth: nat,
                  v1: map<string, nat>, q1: seq<Item>, p1: seq<Path>)
    requires Searching(q, v0, q0, expanded, p0, depth) && q0 != []
    requires QueueOk(q, v1, q1, |q0[0].edges|) && PathsOk(q, p1) && (p0 != [] ==> p1 != [])
    requires forall v :: v in v1 ==> v1[v] <= |q0[0].edges| + 1
    requires Extends(q, v0, q0[1..], v1, q1, |q0[0].edges| + 1)
    requires |q0[0].edges| < q.maxHops ==>
               q0[0].node in v1 && forall r :: r in Results(q, q0[0].node) ==> Followed(q, v1, p1, q0[0].node, r)
    ensures Searching(q, v1, q1, expanded + {q0[0].node}, p1, |q0[0].edges|)
  {
    var it := q0[0];
    QueueTail(q, v0, q0, depth);
    ItemNode(q, v0, it);
    hide PathsOk, ItemOk, QueueOk, Closed, Results, Followed, Tracked;
    TrackedAfter(q, v0, q0, expanded, v1, q1, |it.edges| + 1);
    ClosedAfter(q, v0, q0[1..], expanded, p0, it.node, v1, q1, p1, |it.edges| + 1);
  }

  /** What the search has found when it stops: a path, or an empty queue. */
  lemma SearchEnds(q: Search, visited: map<string, nat>, queue: seq<Item>, expanded: set<string>, paths: seq<Path>,
                   depth: nat)
    requires Searching(q, visited, queue, expanded, paths, depth)
    requires queue == [] || paths != []
    ensures forall i :: 0 <= i < |paths| ==> PathOk(q, paths[i])
    ensures RowsFit(q) ==> (paths != [] <==> Reachable(q))
    ensures RowsFit(q) && paths != [] ==> NoShorter(q, |paths[0].edges|)
  {
    if paths != [] {
      assert Arrives(q, paths[0].nodes, paths[0].edges);
    } else if RowsFit(q) {
      NodesExpanded(q, visited, [], expanded, q.maxHops);
      NothingArrives(q, visited, expanded, q.maxHops);
    }
  }

  lemma SkipExtends(q: Search, visited: map<string, nat>, queue: seq<Item>, d: nat)
    ensures Extends(q, visited, queue, visited, queue, d)
  {
  }

  /** Collects paths from the source to the target.

      Every collected path is a walk of admissible relationships with distinct nodes and no more than
      maxHops of them. When no query is cut short, a path is collected exactly when some walk arrives
      within maxHops, and the first one collected is a shortest walk there is. */
  method FindPaths(q: Search) returns (paths: seq<Path>)
    ensures forall i :: 0 <= i < |paths| ==> PathOk(q, paths[i])
    ensures RowsFit(q) ==> (paths != [] <==> Reachable(q))
    ensures RowsFit(q) && paths != [] ==> NoShorter(q, |paths[0].edges|)
  {
    hide Searching, ItemOk, QueueOk, PathsOk, PathOk, NoShorter, RowsFit, Followed, Results, Reachable, Extends,
         Unseen, Neighbours;
    paths := [];
    var queue := [Item(q.source, [], [])];
    var visited: map<string, nat> := map[q.source := 0];
    ghost var expanded: set<string> := {};
    ghost var depth: nat := 0;
    SearchStarts(q);
    while |queue| > 0 && |paths| < ENOUGH
      invariant Searching(q, visited, queue, expanded, paths, depth)
      decreases Unseen(q, visited), |queue|
    {
      ghost var v0, q0, p0 := visited, queue, paths;
      BeforeExpand(q, visited, queue, expanded, paths, depth);
      var it := queue[0];
      queue := queue[1..];
      if |it.edges| < q.maxHops {
        visited, queue, paths := Expand(q, it, visited, queue, paths);
      } else {
        SkipExtends(q, visited, queue, |it.edges| + 1);
      }
      Shrinks(q, v0, q0, visited, queue, |it.edges| + 1);
      AfterTurn(q, v0, q0, expanded, p0, depth, visited, queue, paths);
      expanded := expanded + {it.node};
      depth := |it.edges|;
    }
    SearchEnds(q, visited, queue, expanded, paths, depth);
  }

  /** How many nodes the search has yet to see. */
  ghost function Unseen(q: Search, visited: map<string, nat>): nat {
    |Neighbours(q) - visited.Keys|
  }

  lemma Shrinks(q: Search, v0: map<string, nat>, q0: seq<Item>, v1: map<string, nat>, q1: seq<Item>, d: nat)
    requires q0 != [] && Extends(q, v0, q0[1..], v1, q1, d)
    ensures Unseen(q, v1) < Unseen(q, v0) || (Unseen(q, v1) == Unseen(q, v0) && |q1| < |q0|)
  {
    if v0.Keys != v1.Keys {
      var x :| x in v1.Keys && x !in v0.Keys;
      SubsetSize(Neighbours(q) - v1.Keys, (Neighbours(q) - v0.Keys) - {x});
    }
  }

  lemma {:induction false} SubsetSize(a: set<string>, b: set<string>)
    requires a <= b
    ensures |a| <= |b|
    decreases a
  {
    if a != {} {
      var x :| x in a;
      SubsetSize(a - {x}, b - {x});
    }
  }
}
