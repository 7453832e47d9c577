// The walk told in the fields of facts, entities and rules alone.

module TraversalPlain {
  import opened Ordering
  import opened Estate
  import opened Traversal
  import opened TraversalSound
  import opened TraversalReach

  predicate SameTriple(a: Rule, b: Rule) {
    a.relation == b.relation && a.direction == b.direction && a.classification == b.classification
  }

  /** `q` is the first rule of the policy with `r`'s relation, direction and classification. */
  predicate Heads(p: Policy, q: Rule, r: Rule) {
    exists i :: 0 <= i < |p.edges| && p.edges[i] == q && SameTriple(q, r)
                && forall j :: 0 <= j < i ==> !SameTriple(p.edges[j], r)
  }

  /** The fact joins two different entities of the estate, followed from `x` to `y` in the given direction. */
  predicate Leads(g: Graph, d: Direction, f: Fact, x: EntityId, y: EntityId) {
    && f in g.facts && x in g.entities && y in g.entities && x != y
    && (d == Inbound ==> f.target == x && f.subject == y)
    && (d == Outbound ==> f.subject == x && f.target == y)
  }

  /** Rule `r` takes node `m` across fact `f` to `y`; the types led to are those of `q`, which heads its triple. */
  predicate Crosses(g: Graph, p: Policy, m: Node, r: Rule, q: Rule, f: Fact, y: EntityId) {
    && r in p.edges && Heads(p, q, r)
    && m.kind in r.fromTypes && m.depth + 1 <= r.maxDepth && m.depth + 1 <= p.maxDepth
    && f.relation == r.relation && Leads(g, r.direction, f, m.id, y)
    && (q.toTypes == {} || g.entities[y].kind in q.toTypes)
  }

  /** The node across the fact: it carries the fact, the rule's terms and the path that led there. */
  predicate Across(g: Graph, p: Policy, m: Node, r: Rule, q: Rule, f: Fact, n: Node) {
    && Crosses(g, p, m, r, q, f, n.id) && f.evidenced && f.confidence >= p.minimumConfidence
    && n.kind == g.entities[n.id].kind && n.key == g.entities[n.id].key && n.depth == m.depth + 1
    && n.classification == r.classification && n.weight == q.weight && n.relation == Some(r.relation)
    && n.origin == Some(m.id) && n.fact == Some(f.id) && n.confidence == f.confidence && n.path == m.path + [n.id]
  }

  /** The branch that stops at the fact, which is cited only if there is evidence for it. */
  predicate StopsAt(g: Graph, p: Policy, m: Node, r: Rule, q: Rule, f: Fact, s: StoppedBranch) {
    && Crosses(g, p, m, r, q, f, s.id)
    && (f.evidenced ==> f.confidence < p.minimumConfidence && s.reason == LowConfidence && s.fact == Some(f.id))
    && (!f.evidenced ==> s.reason == MissingEvidence && s.fact == None)
    && s.kind == g.entities[s.id].kind && s.depth == m.depth + 1 && s.relation == r.relation
    && s.confidence == f.confidence && s.path == m.path + [s.id]
  }

  lemma {:induction false} FirstOfTriple(edges: seq<Rule>, r: Rule)
    requires r in edges
    ensures exists i :: 0 <= i < |edges| && edges[i] == FirstRule(edges, KeyOf(r)) && SameTriple(edges[i], r)
                        && forall j :: 0 <= j < i ==> !SameTriple(edges[j], r)
  {
    if KeyOf(edges[0]) == KeyOf(r) {
      assert SameTriple(edges[0], r);
    } else {
      assert !SameTriple(edges[0], r);
      FirstOfTriple(edges[1..], r);
      var i :| 0 <= i < |edges[1..]| && edges[1..][i] == FirstRule(edges[1..], KeyOf(r)) && SameTriple(edges[1..][i], r)
               && forall j :: 0 <= j < i ==> !SameTriple(edges[1..][j], r);
      forall j | 0 <= j < i + 1 ensures !SameTriple(edges[j], r) {
        if j > 0 { assert edges[j] == edges[1..][j - 1]; }
      }
      assert edges[i + 1] == edges[1..][i];
    }
  }

  lemma HeadIsFirst(p: Policy, q: Rule, r: Rule)
    requires r in p.edges
    ensures Heads(p, q, r) <==> q == FirstRule(p.edges, KeyOf(r))
  {
    FirstOfTriple(p.edges, r);
  }

  lemma CrossingIsEdge(t: Task, m: Node, r: Rule, q: Rule, f: Fact, y: EntityId)
    requires Crosses(t.graph, t.policy, m, r, q, f, y)
    ensures EdgeFrom(t, m, f, r) && FirstRule(t.policy.edges, KeyOf(r)) == q
    ensures EdgeRow(t, m, f, r).id == y
  {
    HeadIsFirst(t.policy, q, r);
  }

  lemma EdgeIsCrossing(t: Task, m: Node, f: Fact, r: Rule)
    requires EdgeFrom(t, m, f, r)
    ensures var q := FirstRule(t.policy.edges, KeyOf(r));
            Crosses(t.graph, t.policy, m, r, q, f, EdgeRow(t, m, f, r).id)
  {
    HeadIsFirst(t.policy, FirstRule(t.policy.edges, KeyOf(r)), r);
  }

  lemma RootIds(seeds: seq<Node>)
    ensures forall i :: 0 <= i < |Roots(seeds)| ==> Roots(seeds)[i].id in Ids(seeds)
  {
    RootsAreSeeds(seeds);
    forall i | 0 <= i < |Roots(seeds)| ensures Roots(seeds)[i].id in Ids(seeds) {
      IdsMember(Roots(seeds), Roots(seeds)[i]);
    }
  }

  /** Under any budgets every node past the seeds lies across an admitted, eligible fact from an earlier node. */
  lemma NodesLieAcross(t: Task, seeds: seq<Node>, n: Node)
    requires n in Expanded(t, seeds).nodes && n.id !in Ids(seeds)
    ensures exists m, r, q, f :: m in Expanded(t, seeds).nodes && Across(t.graph, t.policy, m, r, q, f, n)
  {
    var nodes := Expanded(t, seeds).nodes;
    ExpandedIsSound(t, seeds);
    RootIds(seeds);
    var i :| 0 <= i < |nodes| && nodes[i] == n;
    assert GrownAt(t, nodes, i);
    var j :| 0 <= j < i && GrownFrom(t, nodes[j], n);
    var f, r :| Follows(t, nodes[j], n, f, r);
    EdgeIsCrossing(t, nodes[j], f, r);
    assert Across(t.graph, t.policy, nodes[j], r, FirstRule(t.policy.edges, KeyOf(r)), f, n);
  }

  /** And every stopped branch stops at an admitted fact that is not eligible, out of a recorded node. */
  lemma BranchesStop(t: Task, seeds: seq<Node>, s: StoppedBranch)
    requires s in Expanded(t, seeds).stopped
    ensures exists m, r, q, f :: m in Expanded(t, seeds).nodes && StopsAt(t.graph, t.policy, m, r, q, f, s)
  {
    ExpandedStopsAreSound(t, seeds);
    var m :| m in Expanded(t, seeds).nodes && HaltedFrom(t, m, s);
    var f, r :| Halts(t, m, s, f, r);
    EdgeIsCrossing(t, m, f, r);
    assert StopsAt(t.graph, t.policy, m, r, FirstRule(t.policy.edges, KeyOf(r)), f, s);
  }

  /** When nothing was cut off, whatever a rule takes a recorded node to is recorded, no deeper than one step on. */
  lemma CrossedIsRecorded(t: Task, seeds: seq<Node>, d0: nat, m: Node, r: Rule, q: Rule, f: Fact, y: EntityId)
    requires (forall s :: s in seeds ==> s.depth == d0) && !Expanded(t, seeds).truncated
    requires m in Expanded(t, seeds).nodes && Crosses(t.graph, t.policy, m, r, q, f, y)
    requires f.evidenced && f.confidence >= t.policy.minimumConfidence
    ensures exists n :: n in Expanded(t, seeds).nodes && n.id == y && n.depth <= m.depth + 1
  {
    UncappedIsCovered(t, seeds, d0);
    CrossingIsEdge(t, m, r, q, f, y);
    assert Keeps(t, Expanded(t, seeds), m, q, EdgeRow(t, m, f, r));
  }

  lemma StopIsRecorded(t: Task, seeds: seq<Node>, d0: nat, m: Node, r: Rule, q: Rule, f: Fact, s: StoppedBranch)
    requires (forall n :: n in seeds ==> n.depth == d0) && !Expanded(t, seeds).truncated
    requires m in Expanded(t, seeds).nodes && StopsAt(t.graph, t.policy, m, r, q, f, s)
    ensures s in Expanded(t, seeds).stopped
  {
    UncappedIsCovered(t, seeds, d0);
    CrossingIsEdge(t, m, r, q, f, s.id);
    assert Keeps(t, Expanded(t, seeds), m, q, EdgeRow(t, m, f, r));
  }

  /** And a branch is recorded as stopped exactly when it stops at such a fact out of a recorded node. */
  lemma StoppedExactly(t: Task, seeds: seq<Node>, d0: nat, s: StoppedBranch)
    requires (forall n :: n in seeds ==> n.depth == d0) && !Expanded(t, seeds).truncated
    ensures s in Expanded(t, seeds).stopped
            <==> exists m, r, q, f :: m in Expanded(t, seeds).nodes && StopsAt(t.graph, t.policy, m, r, q, f, s)
  {
    if s in Expanded(t, seeds).stopped {
      BranchesStop(t, seeds, s);
    }
    if m, r, q, f :| m in Expanded(t, seeds).nodes && StopsAt(t.graph, t.policy, m, r, q, f, s) {
      StopIsRecorded(t, seeds, d0, m, r, q, f, s);
    }
  }

  // ---- Seeds and limitations

  predicate SeedBefore(a: Node, b: Node) {
    var s, t := if a.key.Some? then a.key.value else "", if b.key.Some? then b.key.value else "";
    TextBefore(s, t) || (s == t && a.id < b.id)
  }

  lemma NodeOrderReads(a: Node, b: Node)
    ensures Less(NodeOrder(a), NodeOrder(b)) <==> SeedBefore(a, b)
  {
    TextDecides(if a.key.Some? then a.key.value else "", if b.key.Some? then b.key.value else "", [a.id], [b.id]);
    NumberDecides(a.id, b.id, [], []);
  }

  ghost predicate InSeedOrder(nodes: seq<Node>) {
    forall i, j :: 0 <= i < j < |nodes| ==> !SeedBefore(nodes[j], nodes[i])
  }

  lemma {:induction false} DistinctKeepsOrder(seeds: seq<Node>)
    requires InSeedOrder(seeds)
    ensures InSeedOrder(Distinct(seeds)) && forall n :: n in Distinct(seeds) ==> n in seeds
    decreases |seeds|
  {
    if seeds != [] {
      var front, last := seeds[..|seeds| - 1], seeds[|seeds| - 1];
      DistinctKeepsOrder(front);
      assert seeds == front + [last];
      var d := Distinct(front);
      forall i | 0 <= i < |d| ensures !SeedBefore(last, d[i]) {
        assert d[i] in front;
      }
    }
  }

  /** The walk lists first, in the order of their keys and ids, one seed of each entity. */
  lemma SeedsComeFirst(t: Task, seeds: seq<Node>)
    ensures var n, nodes := |Ids(seeds)|, Expanded(t, seeds).nodes;
            && n <= |nodes| && Ids(nodes[..n]) == Ids(seeds) && InSeedOrder(nodes[..n])
            && (forall s :: s in nodes[..n] ==> s in seeds)
            && (forall i :: n <= i < |nodes| ==> nodes[i].id !in Ids(seeds))
  {
    var nodes, roots := Expanded(t, seeds).nodes, Roots(seeds);
    ExpandedIsSound(t, seeds);
    RootsAreSeeds(seeds);
    IdsCount(roots);
    SortSorts(seeds, NodeOrder);
    var sorted := SortBy(seeds, NodeOrder);
    forall i, j | 0 <= i < j < |sorted| ensures !SeedBefore(sorted[j], sorted[i]) {
      NodeOrderReads(sorted[j], sorted[i]);
    }
    DistinctKeepsOrder(sorted);
    assert nodes[..|roots|] == roots;
    forall i | |roots| <= i < |nodes| ensures nodes[i].id !in Ids(roots) {
      forall s | s in roots ensures s.id != nodes[i].id {
        var j :| 0 <= j < |roots| && roots[j] == s;
        assert nodes[j] == s;
      }
    }
  }

  predicate OnlyBudget(limits: seq<Limit>) {
    limits == [] || limits == [TraversalBudget]
  }

  /** Each limitation once, the budget's first. */
  predicate InNotedOrder(limits: seq<Limit>) {
    OnlyBudget(limits) || limits == [MaxDepth] || limits == [TraversalBudget, MaxDepth]
  }

  /** The frontier is what sits at `depth`, and nothing noted so far is about depth. */
  ghost predicate LevelStarts(t: Task, w: Walk, frontier: seq<Node>, depth: nat) {
    && (forall n :: n in frontier ==> n in w.nodes && n.depth == depth)
    && (forall n :: n in w.nodes ==> n in frontier || n.depth < t.policy.maxDepth)
    && OnlyBudget(w.limitations)
  }

  lemma {:induction false} RowsNoteNoDepth(t: Task, w: Walk, rows: seq<Row>, origins: map<EntityId, Node>, r: Rule)
    requires Anchored(rows, origins) && OnlyBudget(w.limitations)
    ensures OnlyBudget(WalkRows(t, w, rows, origins, r).limitations)
    decreases |rows|
  {
    if rows != [] {
      var row := rows[0];
      assert row in rows;
      forall q | q in rows[1..] ensures q in rows {}
      match Eligibility(row.evidenced, row.confidence, t.policy.minimumConfidence)
      case Some(reason) =>
        RowsNoteNoDepth(t, w.(stopped := w.stopped + [StoppedAt(row, origins[row.origin], r, reason)]), rows[1..],
                        origins, r);
      case None =>
        RowsNoteNoDepth(t, w, rows[1..], origins, r);
        RowsNoteNoDepth(t, w.(nodes := w.nodes + [NodeAt(row, origins[row.origin], r)]), rows[1..], origins, r);
    }
  }

  lemma QueryNotesNoDepth(t: Task, w: Walk, q: Query)
    requires Anchored(q.rows, q.origins) && t.edgeBudget > w.edgesWalked && OnlyBudget(w.limitations)
    ensures OnlyBudget(WalkQuery(t, w, q).limitations)
  {
    var remaining := t.edgeBudget - w.edgesWalked;
    RowsNoteNoDepth(t, Spend(w, q.rows, remaining), Take(q.rows, remaining), q.origins, q.rule);
  }

  lemma {:induction false} KeysNoteNoDepth(t: Task, w: Walk, keys: seq<RuleKey>, frontier: seq<Node>)
    requires (forall k :: k in keys ==> HasKey(t.policy.edges, k)) && OnlyBudget(w.limitations)
    ensures OnlyBudget(WalkKeys(t, w, keys, frontier).limitations)
    decreases |keys|
  {
    if keys != [] && t.edgeBudget - w.edgesWalked > 0 {
      var q := QueryFor(t, keys[0], frontier);
      QueryNotesNoDepth(t, w, q);
      KeysNoteNoDepth(t, WalkQuery(t, w, q), keys[1..], frontier);
    }
  }

  lemma LevelStartsNext(t: Task, w: Walk, frontier: seq<Node>, depth: nat)
    requires LevelStarts(t, w, frontier, depth) && depth < t.policy.maxDepth
    ensures var w' := WalkLevel(t, w, frontier); LevelStarts(t, w', NextFrontier(w, w'), depth + 1)
  {
    var w', keys := WalkLevel(t, w, frontier), LevelKeys(t.policy, frontier);
    LevelKeysKnown(t.policy, frontier);
    WalkKeysDepth(t, w, keys, frontier, depth);
    KeysNoteNoDepth(t, w, keys, frontier);
    NextFrontierIsNew(w, w');
    forall n | n in w'.nodes ensures n in NextFrontier(w, w') || n.depth < t.policy.maxDepth {
      var i :| 0 <= i < |w'.nodes| && w'.nodes[i] == n;
      if i < |w.nodes| { assert w.nodes[i] == n; } else { assert n in w'.nodes[|w.nodes|..]; }
    }
  }

  lemma {:induction false} LevelsNoteDepth(t: Task, w: Walk, frontier: seq<Node>, depth: nat)
    requires LevelStarts(t, w, frontier, depth)
    ensures var w' := WalkLevels(t, w, frontier, depth);
            MaxDepth in w'.limitations
            <==> "MAX_DEPTH" in t.policy.stopConditions && exists n :: n in w'.nodes && n.depth >= t.policy.maxDepth
    ensures InNotedOrder(WalkLevels(t, w, frontier, depth).limitations)
    decreases t.policy.maxDepth - depth
  {
    if Ends(t, frontier, depth) {
      if frontier != [] { assert frontier[0] in w.nodes; }
    } else {
      var w1 := WalkLevel(t, w, frontier);
      LevelStartsNext(t, w, frontier, depth);
      LevelsNoteDepth(t, w1, NextFrontier(w, w1), depth + 1);
    }
  }

  /**
   * MAX_DEPTH is noted exactly when the policy asks for it and some node sits at the policy's depth bound; it is noted
   * once, after whatever a budget cut off.
   */
  lemma DepthBoundIsNoted(t: Task, seeds: seq<Node>, d0: nat)
    requires forall s :: s in seeds ==> s.depth == d0
    ensures var w := Expanded(t, seeds);
            MaxDepth in w.limitations
            <==> "MAX_DEPTH" in t.policy.stopConditions && exists n :: n in w.nodes && n.depth >= t.policy.maxDepth
    ensures InNotedOrder(Expanded(t, seeds).limitations)
  {
    RootsAreSeeds(seeds);
    var w := Start(seeds);
    DeepestOfUniform(w.nodes, d0);
    LevelsNoteDepth(t, w, w.nodes, DeepestOf(w.nodes));
  }

  /** The walk starts at the depth of the deepest seed. */
  lemma {:induction false} DeepestIsLargest(nodes: seq<Node>)
    ensures forall n :: n in nodes ==> n.depth <= DeepestOf(nodes)
    ensures nodes != [] ==> exists n :: n in nodes && n.depth == DeepestOf(nodes)
  {
    if nodes != [] {
      assert nodes == [nodes[0]] + nodes[1..];
      DeepestIsLargest(nodes[1..]);
      if nodes[1..] != [] && DeepestOf(nodes[1..]) == DeepestOf(nodes) {
        var n :| n in nodes[1..] && n.depth == DeepestOf(nodes[1..]);
        assert n in nodes;
      } else {
        assert nodes[0] in nodes;
      }
    }
  }
}
