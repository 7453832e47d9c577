// Completeness and minimal depth: an untruncated walk is exactly policy-admitted reachability, at least depth.

module TraversalReach {
  import opened Ordering
  import opened Estate
  import opened Traversal
  import opened TraversalSound

  /** Which type filter guards a rule: its own, as the policy is written, or the first one with its key, as grouped. */
  datatype Reading = AsWritten | AsGrouped

  function Guard(p: Policy, how: Reading, r: Rule): Rule
    requires r in p.edges
  {
    if how.AsWritten? then r else FirstRule(p.edges, KeyOf(r))
  }

  ghost predicate HopBy(g: Graph, p: Policy, how: Reading, x: EntityId, d: nat, y: EntityId, f: Fact, r: Rule) {
    && f in g.facts && r in p.edges && x in g.entities
    && g.entities[x].kind in r.fromTypes && d + 1 <= r.maxDepth && d + 1 <= p.maxDepth
    && f.evidenced && f.confidence >= p.minimumConfidence && f.relation == r.relation
    && (if r.direction == Inbound then f.target == x && f.subject == y else f.subject == x && f.target == y)
    && x != y && y in g.entities && (Guard(p, how, r).toTypes == {} || g.entities[y].kind in Guard(p, how, r).toTypes)
  }

  /** One eligible edge from entity `x`, sitting at depth `d`, to entity `y`, that some rule admits. */
  ghost predicate Hop(g: Graph, p: Policy, how: Reading, x: EntityId, d: nat, y: EntityId) {
    exists f, r :: HopBy(g, p, how, x, d, y, f, r)
  }

  /** `x` ends a walk of admitted hops that starts at a root at depth `d0` and arrives at depth `d`. */
  ghost predicate Reach(g: Graph, p: Policy, how: Reading, roots: set<EntityId>, d0: nat, x: EntityId, d: nat)
    decreases d
  {
    if d <= d0 then d == d0 && x in roots
    else exists y, e: nat :: e + 1 == d && Reach(g, p, how, roots, d0, y, e) && Hop(g, p, how, y, e, x)
  }

  /** The caller's seeds: entities of the graph, all at one depth. */
  ghost predicate WellSeeded(g: Graph, seeds: seq<Node>, d0: nat) {
    forall s :: s in seeds ==> s.depth == d0 && s.id in g.entities && g.entities[s.id] == Entity(s.kind, s.key)
  }

  ghost predicate Matches(g: Graph, n: Node) {
    n.id in g.entities && g.entities[n.id] == Entity(n.kind, n.key)
  }

  // ---- Soundness in terms of reachability

  lemma FollowsIsHop(t: Task, m: Node, n: Node)
    requires GrownFrom(t, m, n) && Matches(t.graph, m)
    ensures Hop(t.graph, t.policy, AsGrouped, m.id, m.depth, n.id)
    ensures Matches(t.graph, n) && n.depth == m.depth + 1 && n.path == m.path + [n.id]
  {
    var f, r :| Follows(t, m, n, f, r);
    assert HopBy(t.graph, t.policy, AsGrouped, m.id, m.depth, n.id, f, r);
  }

  lemma {:induction false} NodeIsReached(t: Task, roots: seq<Node>, nodes: seq<Node>, d0: nat, i: nat)
    requires Sound(t, roots, nodes) && WellSeeded(t.graph, roots, d0) && i < |nodes|
    ensures Matches(t.graph, nodes[i]) && nodes[i].depth >= d0
    ensures Reach(t.graph, t.policy, AsGrouped, Ids(roots), d0, nodes[i].id, nodes[i].depth)
    decreases i
  {
    if i < |roots| {
      assert nodes[i] == roots[i];
    } else {
      assert GrownAt(t, nodes, i);
      var j :| 0 <= j < i && GrownFrom(t, nodes[j], nodes[i]);
      NodeIsReached(t, roots, nodes, d0, j);
      FollowsIsHop(t, nodes[j], nodes[i]);
      assert nodes[j].depth + 1 == nodes[i].depth;
    }
  }

  // ---- Coverage: every hop out of a covered node leads to a recorded node, one level deeper at most

  ghost predicate Covers(nodes: seq<Node>, y: EntityId, depth: nat) {
    exists m :: m in nodes && m.id == y && m.depth <= depth
  }

  /**
   * What the walk keeps of an edge: an eligible one's target, at most one level deeper; an ineligible one as a STOP.
   */
  ghost predicate Keeps(t: Task, w: Walk, m: Node, r: Rule, row: Row) {
    match Eligibility(row.evidenced, row.confidence, t.policy.minimumConfidence)
    case None => Covers(w.nodes, row.id, m.depth + 1)
    case Some(reason) => StoppedAt(row, m, r, reason) in w.stopped
  }

  ghost predicate Covered(t: Task, w: Walk, n: Node) {
    forall f, r :: EdgeFrom(t, n, f, r) ==> Keeps(t, w, n, FirstRule(t.policy.edges, KeyOf(r)), EdgeRow(t, n, f, r))
  }

  /** The same without the depth of what was recorded. */
  ghost predicate Absorbed(t: Task, w: Walk, m: Node, r: Rule, row: Row) {
    match Eligibility(row.evidenced, row.confidence, t.policy.minimumConfidence)
    case None => row.id in Ids(w.nodes)
    case Some(reason) => StoppedAt(row, m, r, reason) in w.stopped
  }

  lemma AbsorbedGrows(t: Task, w: Walk, w': Walk, m: Node, r: Rule, row: Row)
    requires Absorbed(t, w, m, r, row) && Grows(w, w')
    ensures Absorbed(t, w', m, r, row)
  {
    GrowIds(w.nodes, w'.nodes);
  }

  lemma {:induction false} RowsAreAbsorbed(t: Task, w: Walk, rows: seq<Row>, origins: map<EntityId, Node>, r: Rule,
                                           row: Row)
    requires Anchored(rows, origins) && row in rows
    requires !WalkRows(t, w, rows, origins, r).truncated
    ensures Absorbed(t, WalkRows(t, w, rows, origins, r), origins[row.origin], r, row)
    decreases |rows|
  {
    var head := rows[0];
    assert head in rows;
    forall q | q in rows[1..] ensures q in rows {}
    assert row == head || row in rows[1..];
    var origin := origins[head.origin];
    var w1 := match Eligibility(head.evidenced, head.confidence, t.policy.minimumConfidence)
              case Some(reason) => w.(stopped := w.stopped + [StoppedAt(head, origin, r, reason)])
              case None => if head.id in Ids(w.nodes) then w else w.(nodes := w.nodes + [NodeAt(head, origin, r)]);
    assert WalkRows(t, w, rows, origins, r) == WalkRows(t, w1, rows[1..], origins, r);
    if row == head {
      assert Absorbed(t, w1, origin, r, head) by { if |w1.nodes| > |w.nodes| { assert NodeAt(head, origin,
                                                                                             r) in w1.nodes; } }
      WalkRowsGrows(t, w1, rows[1..], origins, r);
      AbsorbedGrows(t, w1, WalkRows(t, w1, rows[1..], origins, r), origin, r, head);
    } else {
      RowsAreAbsorbed(t, w1, rows[1..], origins, r, row);
    }
  }

  lemma GrowIds(a: seq<Node>, b: seq<Node>)
    requires a <= b
    ensures Ids(a) <= Ids(b)
    ensures forall n :: n in a ==> n in b
  {
    forall n | n in a ensures n in b {
      var i :| 0 <= i < |a| && a[i] == n;
      assert b[i] == n;
    }
  }

  lemma EdgeIsQueried(t: Task, k: RuleKey, frontier: seq<Node>, n: Node, f: Fact, r: Rule)
    requires HasKey(t.policy.edges, k) && n in frontier && EdgeFrom(t, n, f, r) && KeyOf(r) == k
    ensures EdgeRow(t, n, f, r) in QueryFor(t, k, frontier).rows
    ensures n.id in QueryFor(t, k, frontier).origins
  {
    var q := QueryFor(t, k, frontier);
    OriginsAre(t.policy, k, frontier);
    assert AdmitsKey(t.policy, k, n);
    assert Joins(t.graph.entities, q.rule, q.origins.Keys, f);
    AllRowsMembers(t.graph, q.rule, q.origins.Keys);
    assert EdgeRow(t, n, f, r) == RowOf(t.graph.entities, q.rule, q.origins.Keys, f);
  }

  /** A query that truncated nothing recorded every row it found. */
  lemma QueryAbsorbs(t: Task, w: Walk, q: Query, row: Row)
    requires Anchored(q.rows, q.origins) && t.edgeBudget > w.edgesWalked && row in q.rows
    requires !WalkQuery(t, w, q).truncated
    ensures Absorbed(t, WalkQuery(t, w, q), q.origins[row.origin], q.rule, row)
  {
    var remaining := t.edgeBudget - w.edgesWalked;
    var s := Spend(w, q.rows, remaining);
    WalkRowsGrows(t, s, Take(q.rows, remaining), q.origins, q.rule);
    assert |q.rows| <= remaining;
    RowsAreAbsorbed(t, s, Take(q.rows, remaining), q.origins, q.rule, row);
  }

  lemma {:induction false} KeysTakeEdges(t: Task, w: Walk, keys: seq<RuleKey>, frontier: seq<Node>, n: Node, f: Fact,
                                         r: Rule)
    requires forall k :: k in keys ==> HasKey(t.policy.edges, k)
    requires n in frontier && Unique(frontier) && EdgeFrom(t, n, f, r) && KeyOf(r) in keys
    requires !WalkKeys(t, w, keys, frontier).truncated
    ensures Absorbed(t, WalkKeys(t, w, keys, frontier), n, FirstRule(t.policy.edges, KeyOf(r)), EdgeRow(t, n, f, r))
    decreases |keys|
  {
    var q := QueryFor(t, keys[0], frontier);
    var w1 := WalkQuery(t, w, q);
    WalkKeysGrows(t, w1, keys[1..], frontier);
    var w2 := WalkKeys(t, w1, keys[1..], frontier);
    assert w2 == WalkKeys(t, w, keys, frontier);
    if KeyOf(r) == keys[0] {
      EdgeIsQueried(t, keys[0], frontier, n, f, r);
      OriginsAre(t.policy, keys[0], frontier);
      assert q.origins[n.id] == n;
      QueryAbsorbs(t, w, q, EdgeRow(t, n, f, r));
      AbsorbedGrows(t, w1, w2, n, q.rule, EdgeRow(t, n, f, r));
    } else {
      assert KeyOf(r) in keys[1..];
      KeysTakeEdges(t, w1, keys[1..], frontier, n, f, r);
    }
  }

  /** An untruncated level covers its whole frontier. */
  lemma LevelCoversFrontier(t: Task, w: Walk, frontier: seq<Node>, n: Node)
    requires n in frontier && Unique(frontier)
    requires !WalkLevel(t, w, frontier).truncated
    requires forall m :: m in WalkLevel(t, w, frontier).nodes ==> m.depth <= n.depth + 1
    ensures Covered(t, WalkLevel(t, w, frontier), n)
  {
    var w', keys := WalkLevel(t, w, frontier), LevelKeys(t.policy, frontier);
    LevelKeysKnown(t.policy, frontier);
    forall f, r | EdgeFrom(t, n, f, r)
      ensures Keeps(t, w', n, FirstRule(t.policy.edges, KeyOf(r)), EdgeRow(t, n, f, r))
    {
      assert AdmitsKey(t.policy, KeyOf(r), n);
      assert KeyOf(r) in keys;
      KeysTakeEdges(t, w, keys, frontier, n, f, r);
    }
  }

  lemma EdgeHasKey(t: Task, frontier: seq<Node>, n: Node, f: Fact, r: Rule)
    requires n in frontier && EdgeFrom(t, n, f, r)
    ensures KeyOf(r) in LevelKeys(t.policy, frontier) && n.depth + 1 <= t.policy.maxDepth
  {
    assert AdmitsKey(t.policy, KeyOf(r), n);
    LevelKeysKnown(t.policy, frontier);
  }

  lemma NoKeysNoEdges(t: Task, frontier: seq<Node>, depth: nat, n: Node)
    requires n in frontier && n.depth == depth
    requires depth >= t.policy.maxDepth || LevelKeys(t.policy, frontier) == []
    ensures forall f, r :: !EdgeFrom(t, n, f, r)
  {
    forall f, r ensures !EdgeFrom(t, n, f, r) {
      if EdgeFrom(t, n, f, r) {
        EdgeHasKey(t, frontier, n, f, r);
      }
    }
  }

  lemma HopIsEdge(t: Task, n: Node, y: EntityId, f: Fact, r: Rule)
    requires Matches(t.graph, n) && HopBy(t.graph, t.policy, AsGrouped, n.id, n.depth, y, f, r)
    ensures EdgeFrom(t, n, f, r) && EdgeRow(t, n, f, r).id == y
    ensures EdgeRow(t, n, f, r).evidenced == f.evidenced && EdgeRow(t, n, f, r).confidence == f.confidence
  {}

  // ---- Depth discipline of the levels

  /** Before a level: the frontier is exactly the nodes at `depth`, nothing is deeper, and the rest is covered. */
  ghost predicate AtLevel(t: Task, w: Walk, frontier: seq<Node>, depth: nat) {
    && (forall n :: n in frontier ==> n in w.nodes && n.depth == depth)
    && (forall n :: n in w.nodes ==> n.depth <= depth && (n.depth == depth ==> n in frontier))
    && (forall n :: n in w.nodes && n.depth < depth ==> Covered(t, w, n))
    && Unique(frontier)
  }

  /** Nodes added while a level's rows are walked sit one below the frontier. */
  ghost predicate DeepensTo(w: Walk, w': Walk, depth: nat) {
    && w.nodes <= w'.nodes
    && forall n :: n in w'.nodes[|w.nodes|..] ==> n.depth == depth
  }

  lemma {:induction false} WalkRowsDepth(t: Task, w: Walk, rows: seq<Row>, origins: map<EntityId, Node>, r: Rule,
                                         depth: nat)
    requires Anchored(rows, origins) && forall o :: o in origins ==> origins[o].depth == depth
    ensures DeepensTo(w, WalkRows(t, w, rows, origins, r), depth + 1)
    decreases |rows|
  {
    if rows != [] {
      var row := rows[0];
      assert row in rows;
      forall q | q in rows[1..] ensures q in rows {}
      var origin := origins[row.origin];
      match Eligibility(row.evidenced, row.confidence, t.policy.minimumConfidence)
      case Some(reason) =>
        WalkRowsDepth(t, w.(stopped := w.stopped + [StoppedAt(row, origin, r, reason)]), rows[1..], origins, r, depth);
      case None =>
        if row.id in Ids(w.nodes) {
          WalkRowsDepth(t, w, rows[1..], origins, r, depth);
        } else if |w.nodes| < t.nodeBudget {
          var w1 := w.(nodes := w.nodes + [NodeAt(row, origin, r)]);
          WalkRowsDepth(t, w1, rows[1..], origins, r, depth);
          DeepensTrans(w, w1, WalkRows(t, w, rows, origins, r), depth + 1);
        }
    }
  }

  lemma DeepensTrans(a: Walk, b: Walk, c: Walk, depth: nat)
    requires DeepensTo(a, b, depth) && DeepensTo(b, c, depth)
    ensures DeepensTo(a, c, depth)
  {
    forall n | n in c.nodes[|a.nodes|..] ensures n.depth == depth {
      var i :| |a.nodes| <= i < |c.nodes| && c.nodes[i] == n;
      if i < |b.nodes| {
        assert b.nodes[i] == n && n in b.nodes[|a.nodes|..];
      } else {
        assert n in c.nodes[|b.nodes|..];
      }
    }
  }

  lemma WalkQueryDepth(t: Task, w: Walk, q: Query, depth: nat)
    requires Anchored(q.rows, q.origins) && t.edgeBudget > w.edgesWalked
    requires forall o :: o in q.origins ==> q.origins[o].depth == depth
    ensures DeepensTo(w, WalkQuery(t, w, q), depth + 1)
  {
    var remaining := t.edgeBudget - w.edgesWalked;
    WalkRowsDepth(t, Spend(w, q.rows, remaining), Take(q.rows, remaining), q.origins, q.rule, depth);
  }

  lemma {:induction false} WalkKeysDepth(t: Task, w: Walk, keys: seq<RuleKey>, frontier: seq<Node>, depth: nat)
    requires forall k :: k in keys ==> HasKey(t.policy.edges, k)
    requires forall n :: n in frontier ==> n.depth == depth
    ensures DeepensTo(w, WalkKeys(t, w, keys, frontier), depth + 1)
    decreases |keys|
  {
    if keys != [] && t.edgeBudget - w.edgesWalked > 0 {
      var q := QueryFor(t, keys[0], frontier);
      OriginsAre(t.policy, keys[0], frontier);
      WalkQueryDepth(t, w, q, depth);
      var w1 := WalkQuery(t, w, q);
      WalkKeysDepth(t, w1, keys[1..], frontier, depth);
      DeepensTrans(w, w1, WalkKeys(t, w, keys, frontier), depth + 1);
    }
  }

  lemma CoveredGrows(t: Task, a: Walk, b: Walk, n: Node)
    requires Grows(a, b) && Covered(t, a, n)
    ensures Covered(t, b, n)
  {
    GrowIds(a.nodes, b.nodes);
    forall f, r | EdgeFrom(t, n, f, r)
      ensures Keeps(t, b, n, FirstRule(t.policy.edges, KeyOf(r)), EdgeRow(t, n, f, r))
    {
      assert Keeps(t, a, n, FirstRule(t.policy.edges, KeyOf(r)), EdgeRow(t, n, f, r));
    }
  }

  lemma NextFrontierIsUnique(w: Walk, w': Walk)
    requires w.nodes <= w'.nodes && Unique(w'.nodes)
    ensures Unique(NextFrontier(w, w'))
  {
    var added := w'.nodes[|w.nodes|..];
    assert Unique(added);
    IdsCount(added);
    SortKeepsMembers(added, NodeOrder);
    assert Ids(SortBy(added, NodeOrder)) == Ids(added);
    CountIsUnique(SortBy(added, NodeOrder));
  }

  lemma LevelIsSound(t: Task, roots: seq<Node>, w: Walk, frontier: seq<Node>)
    requires Sound(t, roots, w.nodes) && forall n :: n in frontier ==> n in w.nodes
    ensures var w' := WalkLevel(t, w, frontier);
            Sound(t, roots, w'.nodes) && Grows(w, w') && forall n :: n in NextFrontier(w, w') ==> n in w'.nodes
  {
    LevelKeysKnown(t.policy, frontier);
    WalkKeysSound(t, roots, w, LevelKeys(t.policy, frontier), frontier);
    NextFrontierIsNew(w, WalkLevel(t, w, frontier));
  }

  lemma LevelAdvances(t: Task, roots: seq<Node>, w: Walk, frontier: seq<Node>, depth: nat)
    requires Sound(t, roots, w.nodes)
    requires AtLevel(t, w, frontier, depth)
    requires !WalkLevel(t, w, frontier).truncated
    ensures var w' := WalkLevel(t, w, frontier); AtLevel(t, w', NextFrontier(w, w'), depth + 1)
  {
    var w' := WalkLevel(t, w, frontier);
    LevelIsSound(t, roots, w, frontier);
    LevelKeysKnown(t.policy, frontier);
    WalkKeysDepth(t, w, LevelKeys(t.policy, frontier), frontier, depth);
    NextFrontierIsNew(w, w');
    NextFrontierIsUnique(w, w');
    forall n | n in w'.nodes
      ensures n in w.nodes || (n in w'.nodes[|w.nodes|..] && n.depth == depth + 1)
      ensures n.depth <= depth + 1
    {
      var i :| 0 <= i < |w'.nodes| && w'.nodes[i] == n;
      if i < |w.nodes| { assert w.nodes[i] == n; } else { assert n in w'.nodes[|w.nodes|..]; }
    }
    forall n | n in w'.nodes && n.depth < depth + 1 ensures Covered(t, w', n) {
      if n.depth == depth {
        LevelCoversFrontier(t, w, frontier, n);
      } else {
        CoveredGrows(t, w, w', n);
      }
    }
  }

  lemma NodesMatch(t: Task, roots: seq<Node>, nodes: seq<Node>, d0: nat)
    requires Sound(t, roots, nodes) && WellSeeded(t.graph, roots, d0)
    ensures forall n :: n in nodes ==> Matches(t.graph, n)
  {
    forall n | n in nodes ensures Matches(t.graph, n) {
      var i :| 0 <= i < |nodes| && nodes[i] == n;
      NodeIsReached(t, roots, nodes, d0, i);
    }
  }

  lemma EndIsCovered(t: Task, w: Walk, frontier: seq<Node>, depth: nat)
    requires AtLevel(t, w, frontier, depth) && Ends(t, frontier, depth)
    ensures var w' := Finish(t, w, frontier, depth); forall n :: n in w'.nodes ==> Covered(t, w', n)
  {
    var w' := Finish(t, w, frontier, depth);
    forall n | n in w'.nodes ensures Covered(t, w', n) {
      if n.depth == depth {
        NoKeysNoEdges(t, frontier, depth, n);
      } else {
        CoveredGrows(t, w, w', n);
      }
    }
  }

  /** At the end of an untruncated walk every node is covered. */
  lemma {:induction false} LevelsCoverAll(t: Task, roots: seq<Node>, w: Walk, frontier: seq<Node>, depth: nat)
    requires Sound(t, roots, w.nodes)
    requires AtLevel(t, w, frontier, depth)
    requires !WalkLevels(t, w, frontier, depth).truncated
    ensures var w' := WalkLevels(t, w, frontier, depth); forall n :: n in w'.nodes ==> Covered(t, w', n)
    decreases t.policy.maxDepth - depth
  {
    if !Ends(t, frontier, depth) {
      var w1 := WalkLevel(t, w, frontier);
      LevelIsSound(t, roots, w, frontier);
      WalkLevelsSound(t, roots, w1, NextFrontier(w, w1), depth + 1);
      LevelAdvances(t, roots, w, frontier, depth);
      LevelsCoverAll(t, roots, w1, NextFrontier(w, w1), depth + 1);
    } else {
      EndIsCovered(t, w, frontier, depth);
    }
  }

  lemma HopShallower(g: Graph, p: Policy, how: Reading, x: EntityId, d: nat, d': nat, y: EntityId)
    requires Hop(g, p, how, x, d, y) && d' <= d
    ensures Hop(g, p, how, x, d', y)
  {
    var f, r :| HopBy(g, p, how, x, d, y, f, r);
    assert HopBy(g, p, how, x, d', y, f, r);
  }

  lemma {:induction false} ReachedIsCovered(t: Task, roots: seq<Node>, w: Walk, d0: nat, x: EntityId, d: nat)
    requires Sound(t, roots, w.nodes) && WellSeeded(t.graph, roots, d0)
    requires forall n :: n in w.nodes ==> Covered(t, w, n)
    requires Reach(t.graph, t.policy, AsGrouped, Ids(roots), d0, x, d)
    ensures Covers(w.nodes, x, d)
    decreases d
  {
    if d <= d0 {
      var s :| s in roots && s.id == x;
      GrowIds(roots, w.nodes);
    } else {
      var y, e: nat :| e + 1 == d && Reach(t.graph, t.policy, AsGrouped, Ids(roots), d0, y, e)
                       && Hop(t.graph, t.policy, AsGrouped, y, e, x);
      ReachedIsCovered(t, roots, w, d0, y, e);
      var m :| m in w.nodes && m.id == y && m.depth <= e;
      HopShallower(t.graph, t.policy, AsGrouped, y, e, m.depth, x);
      var f, r :| HopBy(t.graph, t.policy, AsGrouped, m.id, m.depth, x, f, r);
      NodesMatch(t, roots, w.nodes, d0);
      HopIsEdge(t, m, x, f, r);
      assert Covered(t, w, m);
    }
  }

  lemma DeepestOfUniform(nodes: seq<Node>, d0: nat)
    requires forall n :: n in nodes ==> n.depth == d0
    ensures nodes != [] ==> DeepestOf(nodes) == d0
  {
    if |nodes| > 1 {
      DeepestOfUniform(nodes[1..], d0);
    }
  }

  /** When nothing was truncated, no admitted edge of any recorded node was silently dropped. */
  lemma UncappedIsCovered(t: Task, seeds: seq<Node>, d0: nat)
    requires forall s :: s in seeds ==> s.depth == d0
    requires !Expanded(t, seeds).truncated
    ensures var w := Expanded(t, seeds); forall n :: n in w.nodes ==> Covered(t, w, n)
  {
    RootsAreSeeds(seeds);
    var w := Start(seeds);
    DeepestOfUniform(w.nodes, d0);
    if w.nodes != [] {
      LevelsCoverAll(t, w.nodes, w, w.nodes, d0);
    }
  }

  /** A STOP is recorded exactly where a recorded node has an admitted edge that eligibility refuses. */
  lemma UncappedStopsAreExact(t: Task, seeds: seq<Node>, d0: nat)
    requires forall s :: s in seeds ==> s.depth == d0
    requires !Expanded(t, seeds).truncated
    ensures var w := Expanded(t, seeds);
            forall s :: s in w.stopped <==> exists m :: m in w.nodes && HaltedFrom(t, m, s)
  {
    var w := Expanded(t, seeds);
    ExpandedStopsAreSound(t, seeds);
    UncappedIsCovered(t, seeds, d0);
    forall m, s | m in w.nodes && HaltedFrom(t, m, s) ensures s in w.stopped {
      var f, r :| Halts(t, m, s, f, r);
      assert Covered(t, w, m);
      assert Keeps(t, w, m, FirstRule(t.policy.edges, KeyOf(r)), EdgeRow(t, m, f, r));
    }
  }

  /** `nodes` lists exactly the entities reachable from the seeds, each once and at its least depth. */
  ghost predicate ListsReachable(g: Graph, p: Policy, how: Reading, seeds: seq<Node>, d0: nat, nodes: seq<Node>) {
    && Unique(nodes)
    && (forall n :: n in nodes ==> Reach(g, p, how, Ids(seeds), d0, n.id, n.depth))
    && (forall x, d :: Reach(g, p, how, Ids(seeds), d0, x, d) ==> Covers(nodes, x, d))
  }

  /** For every policy whatsoever, an untruncated walk is reachability under the policy as the engine groups it. */
  lemma UncappedWalkIsGroupedReach(t: Task, seeds: seq<Node>, d0: nat)
    requires WellSeeded(t.graph, seeds, d0) && !Expanded(t, seeds).truncated
    ensures ListsReachable(t.graph, t.policy, AsGrouped, seeds, d0, Expanded(t, seeds).nodes)
  {
    var nodes, roots := Expanded(t, seeds).nodes, Roots(seeds);
    ExpandedIsSound(t, seeds);
    RootsAreSeeds(seeds);
    UncappedIsCovered(t, seeds, d0);
    forall n | n in nodes ensures Reach(t.graph, t.policy, AsGrouped, Ids(seeds), d0, n.id, n.depth) {
      var i :| 0 <= i < |nodes| && nodes[i] == n;
      NodeIsReached(t, roots, nodes, d0, i);
    }
    forall x, d | Reach(t.graph, t.policy, AsGrouped, Ids(seeds), d0, x, d) ensures Covers(nodes, x, d) {
      ReachedIsCovered(t, roots, Expanded(t, seeds), d0, x, d);
    }
  }
}
