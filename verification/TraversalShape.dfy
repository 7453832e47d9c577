// Paths, counts, and what the result does not depend on.

module TraversalShape {
  import opened Ordering
  import opened Estate
  import opened Traversal
  import opened TraversalSound
  import opened TraversalReach

  // ---- Paths

  ghost predicate PathsEndAtSeeds(seeds: seq<Node>) {
    forall s :: s in seeds ==> s.path != [] && s.path[|s.path|-1] == s.id
  }

  /** Position `pos` of the path names a recorded node as many levels above `n` as it is steps from the end. */
  ghost predicate PassedAt(nodes: seq<Node>, n: Node, pos: int)
    requires 0 <= pos < |n.path|
  {
    exists m :: m in nodes && m.id == n.path[pos] && m.depth + (|n.path| - 1 - pos) == n.depth
  }

  ghost predicate Descends(nodes: seq<Node>, s: Node, n: Node) {
    && s.path <= n.path && s.path != [] && n.depth >= s.depth
    && |n.path| == |s.path| + (n.depth - s.depth)
    && forall pos :: |s.path| - 1 <= pos < |n.path| ==> PassedAt(nodes, n, pos)
  }

  lemma DescendOnce(t: Task, nodes: seq<Node>, s: Node, m: Node, n: Node)
    requires Descends(nodes, s, m) && GrownFrom(t, m, n) && n in nodes
    ensures Descends(nodes, s, n)
  {
    assert n.path == m.path + [n.id] && n.depth == m.depth + 1;
    forall pos | |s.path| - 1 <= pos < |n.path| ensures PassedAt(nodes, n, pos) {
      if pos < |m.path| {
        assert PassedAt(nodes, m, pos);
      }
    }
  }

  lemma {:induction false} PathDescends(t: Task, roots: seq<Node>, nodes: seq<Node>, i: nat) returns (s: Node)
    requires Sound(t, roots, nodes) && PathsEndAtSeeds(roots) && i < |nodes|
    ensures s in roots && Descends(nodes, s, nodes[i])
    decreases i
  {
    if i < |roots| {
      s := roots[i];
      assert s in roots;
    } else {
      assert GrownAt(t, nodes, i);
      var j :| 0 <= j < i && GrownFrom(t, nodes[j], nodes[i]);
      s := PathDescends(t, roots, nodes, j);
      DescendOnce(t, nodes, s, nodes[j], nodes[i]);
    }
  }

  lemma UniqueById(nodes: seq<Node>, p: Node, q: Node)
    requires Unique(nodes) && p in nodes && q in nodes && p.id == q.id
    ensures p == q
  {}

  lemma DescentIsSimple(nodes: seq<Node>, s: Node, n: Node, i: int, j: int)
    requires Unique(nodes) && Descends(nodes, s, n)
    requires |s.path| - 1 <= i < j < |n.path|
    ensures n.path[i] != n.path[j]
  {
    assert PassedAt(nodes, n, i) && PassedAt(nodes, n, j);
    var p :| p in nodes && p.id == n.path[i] && p.depth + (|n.path| - 1 - i) == n.depth;
    var q :| q in nodes && q.id == n.path[j] && q.depth + (|n.path| - 1 - j) == n.depth;
    if p.id == q.id {
      UniqueById(nodes, p, q);
    }
  }

  ghost predicate SimplePath(s: Node, n: Node) {
    && s.path != [] && s.path <= n.path && n.depth >= s.depth && |n.path| == |s.path| + (n.depth - s.depth)
    && n.path[|n.path| - 1] == n.id
    && forall i, j :: |s.path| - 1 <= i < j < |n.path| ==> n.path[i] != n.path[j]
  }

  lemma SoundPathIsSimple(t: Task, roots: seq<Node>, nodes: seq<Node>, k: nat) returns (s: Node)
    requires Sound(t, roots, nodes) && PathsEndAtSeeds(roots) && k < |nodes|
    ensures s in roots && SimplePath(s, nodes[k])
  {
    s := PathDescends(t, roots, nodes, k);
    PathEnds(t, roots, nodes, k);
    var n := nodes[k];
    forall i, j | |s.path| - 1 <= i < j < |n.path| ensures n.path[i] != n.path[j] {
      DescentIsSimple(nodes, s, n, i, j);
    }
  }

  /** A node's path is its seed's path followed by one new entity per level, none of them twice. */
  lemma PathIsSimple(t: Task, seeds: seq<Node>, n: Node) returns (s: Node)
    requires PathsEndAtSeeds(seeds) && n in Expanded(t, seeds).nodes
    ensures s in seeds && SimplePath(s, n)
  {
    ExpandedIsSound(t, seeds);
    RootsAreSeeds(seeds);
    var nodes := Expanded(t, seeds).nodes;
    var k :| 0 <= k < |nodes| && nodes[k] == n;
    s := SoundPathIsSimple(t, Roots(seeds), nodes, k);
  }

  lemma PathEnds(t: Task, roots: seq<Node>, nodes: seq<Node>, i: nat)
    requires Sound(t, roots, nodes) && PathsEndAtSeeds(roots) && i < |nodes|
    ensures nodes[i].path != [] && nodes[i].path[|nodes[i].path| - 1] == nodes[i].id
  {
    if i < |roots| {
      assert nodes[i] in roots;
    } else {
      assert GrownAt(t, nodes, i);
    }
  }

  // ---- Conservation: whatever is recorded was paid for with a walked edge

  ghost predicate PaidFor(w: Walk, w': Walk) {
    (|w'.nodes| - |w.nodes|) + (|w'.stopped| - |w.stopped|) <= w'.edgesWalked - w.edgesWalked
  }

  lemma {:induction false} RowsArePaid(t: Task, w: Walk, rows: seq<Row>, origins: map<EntityId, Node>, r: Rule)
    requires Anchored(rows, origins)
    ensures var w' := WalkRows(t, w, rows, origins, r);
            (|w'.nodes| - |w.nodes|) + (|w'.stopped| - |w.stopped|) <= |rows| && w'.edgesWalked == w.edgesWalked
    decreases |rows|
  {
    if rows != [] {
      var row := rows[0];
      assert row in rows;
      forall q | q in rows[1..] ensures q in rows {}
      match Eligibility(row.evidenced, row.confidence, t.policy.minimumConfidence)
      case Some(reason) =>
        RowsArePaid(t, w.(stopped := w.stopped + [StoppedAt(row, origins[row.origin], r, reason)]), rows[1..],
                    origins, r);
      case None =>
        RowsArePaid(t, w, rows[1..], origins, r);
        RowsArePaid(t, w.(nodes := w.nodes + [NodeAt(row, origins[row.origin], r)]), rows[1..], origins, r);
    }
  }

  lemma QueryIsPaid(t: Task, w: Walk, q: Query)
    requires Anchored(q.rows, q.origins) && t.edgeBudget > w.edgesWalked
    ensures PaidFor(w, WalkQuery(t, w, q))
  {
    var remaining := t.edgeBudget - w.edgesWalked;
    RowsArePaid(t, Spend(w, q.rows, remaining), Take(q.rows, remaining), q.origins, q.rule);
  }

  lemma {:induction false} KeysArePaid(t: Task, w: Walk, keys: seq<RuleKey>, frontier: seq<Node>)
    requires forall k :: k in keys ==> HasKey(t.policy.edges, k)
    ensures PaidFor(w, WalkKeys(t, w, keys, frontier))
    decreases |keys|
  {
    if keys != [] && t.edgeBudget - w.edgesWalked > 0 {
      var q := QueryFor(t, keys[0], frontier);
      QueryIsPaid(t, w, q);
      KeysArePaid(t, WalkQuery(t, w, q), keys[1..], frontier);
    }
  }

  lemma {:induction false} LevelsArePaid(t: Task, w: Walk, frontier: seq<Node>, depth: nat)
    ensures PaidFor(w, WalkLevels(t, w, frontier, depth))
    decreases t.policy.maxDepth - depth
  {
    if !Ends(t, frontier, depth) {
      LevelKeysKnown(t.policy, frontier);
      KeysArePaid(t, w, LevelKeys(t.policy, frontier), frontier);
      var w1 := WalkLevel(t, w, frontier);
      LevelsArePaid(t, w1, NextFrontier(w, w1), depth + 1);
    }
  }

  /** Nodes added and branches stopped together never exceed the edges walked. */
  lemma RecordsArePaidFor(t: Task, seeds: seq<Node>)
    ensures var w := Expanded(t, seeds);
            (|w.nodes| - |Ids(seeds)|) + |w.stopped| <= w.edgesWalked
  {
    RootsAreSeeds(seeds);
    IdsCount(Roots(seeds));
    var w := Start(seeds);
    LevelsArePaid(t, w, w.nodes, DeepestOf(w.nodes));
  }

  // ---- Truncation is always announced, and only truncation is

  ghost predicate Announced(w: Walk) {
    (w.truncated <==> TraversalBudget in w.limitations)
  }

  lemma {:induction false} RowsAnnounce(t: Task, w: Walk, rows: seq<Row>, origins: map<EntityId, Node>, r: Rule)
    requires Anchored(rows, origins) && Announced(w)
    ensures Announced(WalkRows(t, w, rows, origins, r))
    decreases |rows|
  {
    if rows != [] {
      var row := rows[0];
      assert row in rows;
      forall q | q in rows[1..] ensures q in rows {}
      match Eligibility(row.evidenced, row.confidence, t.policy.minimumConfidence)
      case Some(reason) =>
        RowsAnnounce(t, w.(stopped := w.stopped + [StoppedAt(row, origins[row.origin], r, reason)]), rows[1..],
                     origins, r);
      case None =>
        RowsAnnounce(t, w, rows[1..], origins, r);
        RowsAnnounce(t, w.(nodes := w.nodes + [NodeAt(row, origins[row.origin], r)]), rows[1..], origins, r);
    }
  }

  lemma QueryAnnounces(t: Task, w: Walk, q: Query)
    requires Anchored(q.rows, q.origins) && t.edgeBudget > w.edgesWalked && Announced(w)
    ensures Announced(WalkQuery(t, w, q))
  {
    var remaining := t.edgeBudget - w.edgesWalked;
    RowsAnnounce(t, Spend(w, q.rows, remaining), Take(q.rows, remaining), q.origins, q.rule);
  }

  lemma {:induction false} KeysAnnounce(t: Task, w: Walk, keys: seq<RuleKey>, frontier: seq<Node>)
    requires forall k :: k in keys ==> HasKey(t.policy.edges, k)
    requires Announced(w)
    ensures Announced(WalkKeys(t, w, keys, frontier))
    decreases |keys|
  {
    if keys != [] && t.edgeBudget - w.edgesWalked > 0 {
      var q := QueryFor(t, keys[0], frontier);
      QueryAnnounces(t, w, q);
      KeysAnnounce(t, WalkQuery(t, w, q), keys[1..], frontier);
    }
  }

  lemma {:induction false} LevelsAnnounce(t: Task, w: Walk, frontier: seq<Node>, depth: nat)
    requires Announced(w)
    ensures Announced(WalkLevels(t, w, frontier, depth))
    decreases t.policy.maxDepth - depth
  {
    if !Ends(t, frontier, depth) {
      LevelKeysKnown(t.policy, frontier);
      KeysAnnounce(t, w, LevelKeys(t.policy, frontier), frontier);
      var w1 := WalkLevel(t, w, frontier);
      LevelsAnnounce(t, w1, NextFrontier(w, w1), depth + 1);
    }
  }

  /** A result carries the budget limitation exactly when a budget cut it. */
  lemma TruncationIsAnnounced(t: Task, seeds: seq<Node>)
    ensures Announced(Expanded(t, seeds))
  {
    var w := Start(seeds);
    LevelsAnnounce(t, w, w.nodes, DeepestOf(w.nodes));
  }

  // ---- Determinism: neither the order of seeds nor the order facts are stored in matters

  ghost predicate SameSnapshot(t: Task, u: Task) {
    && t.policy == u.policy && t.nodeBudget == u.nodeBudget && t.edgeBudget == u.edgeBudget
    && t.graph.entities == u.graph.entities && multiset(t.graph.facts) == multiset(u.graph.facts)
    && FactIdsUnique(t.graph.facts)
  }

  lemma SameRows(t: Task, u: Task, w: Walk, rows: seq<Row>, origins: map<EntityId, Node>, r: Rule)
    requires SameSnapshot(t, u) && Anchored(rows, origins)
    ensures WalkRows(t, w, rows, origins, r) == WalkRows(u, w, rows, origins, r)
    decreases |rows|
  {
    if rows != [] {
      var row := rows[0];
      assert row in rows;
      forall q | q in rows[1..] ensures q in rows {}
      match Eligibility(row.evidenced, row.confidence, t.policy.minimumConfidence)
      case Some(reason) =>
        SameRows(t, u, w.(stopped := w.stopped + [StoppedAt(row, origins[row.origin], r, reason)]), rows[1..],
                 origins, r);
      case None =>
        SameRows(t, u, w, rows[1..], origins, r);
        SameRows(t, u, w.(nodes := w.nodes + [NodeAt(row, origins[row.origin], r)]), rows[1..], origins, r);
    }
  }

  lemma SameQuery(t: Task, u: Task, w: Walk, k: RuleKey, frontier: seq<Node>)
    requires SameSnapshot(t, u) && HasKey(t.policy.edges, k) && t.edgeBudget > w.edgesWalked
    ensures QueryFor(t, k, frontier) == QueryFor(u, k, frontier)
    ensures WalkQuery(t, w, QueryFor(t, k, frontier)) == WalkQuery(u, w, QueryFor(u, k, frontier))
  {
    var q := QueryFor(t, k, frontier);
    QueryForgetsStorageOrder(t.graph, u.graph, q.rule, q.origins.Keys);
    var remaining := t.edgeBudget - w.edgesWalked;
    SameRows(t, u, Spend(w, q.rows, remaining), Take(q.rows, remaining), q.origins, q.rule);
  }

  lemma {:induction false} SameKeys(t: Task, u: Task, w: Walk, keys: seq<RuleKey>, frontier: seq<Node>)
    requires forall k :: k in keys ==> HasKey(t.policy.edges, k)
    requires SameSnapshot(t, u)
    ensures WalkKeys(t, w, keys, frontier) == WalkKeys(u, w, keys, frontier)
    decreases |keys|
  {
    if keys != [] && t.edgeBudget - w.edgesWalked > 0 {
      SameQuery(t, u, w, keys[0], frontier);
      SameKeys(t, u, WalkQuery(t, w, QueryFor(t, keys[0], frontier)), keys[1..], frontier);
    }
  }

  lemma {:induction false} SameLevels(t: Task, u: Task, w: Walk, frontier: seq<Node>, depth: nat)
    requires SameSnapshot(t, u)
    ensures WalkLevels(t, w, frontier, depth) == WalkLevels(u, w, frontier, depth)
    decreases t.policy.maxDepth - depth
  {
    if !Ends(t, frontier, depth) {
      LevelKeysKnown(t.policy, frontier);
      SameKeys(t, u, w, LevelKeys(t.policy, frontier), frontier);
      var w1 := WalkLevel(t, w, frontier);
      SameLevels(t, u, w1, NextFrontier(w, w1), depth + 1);
    }
  }

  lemma SeedOrderForgotten(seeds: seq<Node>, other: seq<Node>)
    requires multiset(seeds) == multiset(other)
    requires forall s, r :: s in seeds && r in seeds && s.id == r.id ==> s == r
    ensures Start(seeds) == Start(other)
  {
    forall x, y | x in seeds && y in seeds && NodeOrder(x) == NodeOrder(y) ensures x == y {
      var kx, ky := NodeOrder(x), NodeOrder(y);
      assert kx[|kx| - 1] == x.id && ky[|ky| - 1] == y.id;
    }
    SortForgetsOrder(seeds, other, NodeOrder);
  }

  /** Over one snapshot and one policy the walk is determined, whatever order seeds and facts arrive in. */
  lemma TraversalIsDeterministic(t: Task, u: Task, seeds: seq<Node>, other: seq<Node>)
    requires SameSnapshot(t, u) && multiset(seeds) == multiset(other)
    requires forall s, r :: s in seeds && r in seeds && s.id == r.id ==> s == r
    ensures Expanded(t, seeds) == Expanded(u, other)
  {
    SeedOrderForgotten(seeds, other);
    var w := Start(seeds);
    SameLevels(t, u, w, w.nodes, DeepestOf(w.nodes));
  }
}
