// When the stopped branches of a walk are told apart by relation, fact and entity, which is what keys their findings.

module TraversalStops {
  import opened Ordering
  import opened Estate
  import opened Traversal
  import opened TraversalSound
  import opened TraversalReach
  import opened TraversalTrace

  // ---- No row is fetched twice

  lemma {:induction false} JoinOnce(es: map<EntityId, Entity>, facts: seq<Fact>, r: Rule, origins: set<EntityId>)
    requires FactsOnce(facts)
    ensures NoRepeats(Join(es, facts, r, origins))
  {
    if facts != [] {
      var rest := facts[1..];
      JoinOnce(es, rest, r, origins);
      JoinMembers(es, rest, r, origins);
      if Joins(es, r, origins, facts[0]) {
        var row := RowOf(es, r, origins, facts[0]);
        forall other | other in Join(es, rest, r, origins) ensures other != row {
          var f :| f in rest && Joins(es, r, origins, f) && other == RowOf(es, r, origins, f);
          var i :| 0 <= i < |rest| && rest[i] == f;
          assert facts[i + 1] == f;
        }
        DistinctHalves([row], Join(es, rest, r, origins));
      }
    }
  }

  lemma KeyTraceOnce(t: Task, w: Walk, k: RuleKey, frontier: seq<Node>)
    requires HasKey(t.policy.edges, k) && FactsOnce(t.graph.facts)
    ensures NoRepeats(KeyTrace(t, w, k, frontier))
    ensures forall v :: v in KeyTrace(t, w, k, frontier) ==> v.key == k
  {
    var q := QueryFor(t, k, frontier);
    JoinOnce(t.graph.entities, t.graph.facts, q.rule, q.origins.Keys);
    SortKeepsDistinct(Join(t.graph.entities, t.graph.facts, q.rule, q.origins.Keys), RowOrder);
    var rows := Take(q.rows, t.edgeBudget - w.edgesWalked);
    assert NoRepeats(rows);
  }

  lemma {:induction false} KeysTraceOnce(t: Task, w: Walk, keys: seq<RuleKey>, frontier: seq<Node>)
    requires forall k :: k in keys ==> HasKey(t.policy.edges, k)
    requires FactsOnce(t.graph.facts) && NoRepeats(keys)
    ensures NoRepeats(KeysTrace(t, w, keys, frontier))
    ensures forall v :: v in KeysTrace(t, w, keys, frontier) ==> v.key in keys
    decreases |keys|
  {
    if keys != [] && t.edgeBudget - w.edgesWalked > 0 {
      var w1, rest := WalkQuery(t, w, QueryFor(t, keys[0], frontier)), keys[1..];
      assert keys[0] !in rest && NoRepeats(rest);
      KeyTraceOnce(t, w, keys[0], frontier);
      KeysTraceOnce(t, w1, rest, frontier);
      DistinctHalves(KeyTrace(t, w, keys[0], frontier), KeysTrace(t, w1, rest, frontier));
    }
  }

  lemma LevelTraceOnce(t: Task, w: Walk, frontier: seq<Node>)
    requires FactsOnce(t.graph.facts)
    ensures NoRepeats(LevelTrace(t, w, frontier))
  {
    LevelKeysKnown(t.policy, frontier);
    SortKeepsDistinct(KeysAmong(t.policy, t.policy.edges, frontier), RuleOrder);
    KeysTraceOnce(t, w, LevelKeys(t.policy, frontier), frontier);
  }

  // ---- Where a fetched row comes from

  /** The row is that of an edge out of `n` that a rule with the visit's key admits. */
  ghost predicate VisitedFrom(t: Task, n: Node, v: Visit) {
    exists f, r :: EdgeFrom(t, n, f, r) && KeyOf(r) == v.key && v.row == EdgeRow(t, n, f, r)
  }

  lemma VisitOrigin(t: Task, n: Node, v: Visit)
    requires VisitedFrom(t, n, v)
    ensures v.row.origin == n.id
  {}

  lemma KeyTraceFrom(t: Task, w: Walk, k: RuleKey, frontier: seq<Node>, v: Visit) returns (n: Node)
    requires HasKey(t.policy.edges, k) && v in KeyTrace(t, w, k, frontier)
    ensures n in frontier && VisitedFrom(t, n, v)
  {
    var q := QueryFor(t, k, frontier);
    QueryOfKey(t, frontier, frontier, k);
    assert v.row in q.rows && v.key == k;
    var f, r := RowIsEdge(t, frontier, q, k, v.row);
    n := q.origins[v.row.origin];
    assert KeyOf(r) == k;
  }

  lemma {:induction false} KeysTraceFrom(t: Task, w: Walk, keys: seq<RuleKey>, frontier: seq<Node>, v: Visit)
      returns (n: Node)
    requires forall k :: k in keys ==> HasKey(t.policy.edges, k)
    requires v in KeysTrace(t, w, keys, frontier)
    ensures n in frontier && VisitedFrom(t, n, v)
    decreases |keys|
  {
    if v in KeyTrace(t, w, keys[0], frontier) {
      n := KeyTraceFrom(t, w, keys[0], frontier, v);
    } else {
      n := KeysTraceFrom(t, WalkQuery(t, w, QueryFor(t, keys[0], frontier)), keys[1..], frontier, v);
    }
  }

  lemma LevelTraceFrom(t: Task, w: Walk, frontier: seq<Node>, v: Visit) returns (n: Node)
    requires v in LevelTrace(t, w, frontier)
    ensures n in frontier && VisitedFrom(t, n, v)
  {
    LevelKeysKnown(t.policy, frontier);
    n := KeysTraceFrom(t, w, LevelKeys(t.policy, frontier), frontier, v);
  }

  lemma NewIds(w: Walk, w': Walk, n: Node)
    requires w.nodes <= w'.nodes && Unique(w'.nodes) && n in NextFrontier(w, w')
    ensures n.id !in Ids(w.nodes)
  {
    NextFrontierIsNew(w, w');
    var i :| |w.nodes| <= i < |w'.nodes| && w'.nodes[i] == n;
    forall m | m in w.nodes ensures m.id != n.id {
      var j :| 0 <= j < |w.nodes| && w.nodes[j] == m;
      assert w'.nodes[j] == m;
    }
  }

  /** Each node is expanded once: what a later level fetches starts from a node added since. */
  lemma {:induction false} LevelsTraceFrom(t: Task, roots: seq<Node>, w: Walk, frontier: seq<Node>, depth: nat,
                                           v: Visit)
      returns (n: Node)
    requires Sound(t, roots, w.nodes) && (forall m :: m in frontier ==> m in w.nodes)
    requires v in LevelsTrace(t, w, frontier, depth)
    ensures n in WalkLevels(t, w, frontier, depth).nodes && VisitedFrom(t, n, v)
    ensures n in frontier || n.id !in Ids(w.nodes)
    decreases t.policy.maxDepth - depth
  {
    var w1 := WalkLevel(t, w, frontier);
    var next := NextFrontier(w, w1);
    LevelIsSound(t, roots, w, frontier);
    WalkLevelsGrows(t, w1, next, depth + 1);
    if v in LevelTrace(t, w, frontier) {
      n := LevelTraceFrom(t, w, frontier, v);
      GrowIds(w.nodes, w1.nodes);
      GrowIds(w1.nodes, WalkLevels(t, w, frontier, depth).nodes);
    } else {
      n := LevelsTraceFrom(t, roots, w1, next, depth + 1, v);
      if n in next { NewIds(w, w1, n); }
      GrowIds(w.nodes, w1.nodes);
    }
  }

  lemma {:induction false} LevelsTraceOnce(t: Task, roots: seq<Node>, w: Walk, frontier: seq<Node>, depth: nat)
    requires Sound(t, roots, w.nodes) && (forall m :: m in frontier ==> m in w.nodes) && FactsOnce(t.graph.facts)
    ensures NoRepeats(LevelsTrace(t, w, frontier, depth))
    decreases t.policy.maxDepth - depth
  {
    if !Ends(t, frontier, depth) {
      var w1 := WalkLevel(t, w, frontier);
      var next := NextFrontier(w, w1);
      LevelIsSound(t, roots, w, frontier);
      LevelTraceOnce(t, w, frontier);
      LevelsTraceOnce(t, roots, w1, next, depth + 1);
      var here, later := LevelTrace(t, w, frontier), LevelsTrace(t, w1, next, depth + 1);
      forall u, v | u in here && v in later ensures u != v {
        LevelsApart(t, roots, w, frontier, depth, u, v);
      }
      DistinctHalves(here, later);
    }
  }

  lemma LevelsApart(t: Task, roots: seq<Node>, w: Walk, frontier: seq<Node>, depth: nat, u: Visit, v: Visit)
    requires Sound(t, roots, w.nodes) && (forall m :: m in frontier ==> m in w.nodes)
    requires u in LevelTrace(t, w, frontier)
    requires var w1 := WalkLevel(t, w, frontier); v in LevelsTrace(t, w1, NextFrontier(w, w1), depth + 1)
    ensures u != v
  {
    var w1 := WalkLevel(t, w, frontier);
    var next := NextFrontier(w, w1);
    LevelIsSound(t, roots, w, frontier);
    var m := LevelTraceFrom(t, w, frontier, u);
    var n := LevelsTraceFrom(t, roots, w1, next, depth + 1, v);
    if n in next { NewIds(w, w1, n); }
    GrowIds(w.nodes, w1.nodes);
    IdsMember(w.nodes, m);
    VisitOrigin(t, m, u);
    VisitOrigin(t, n, v);
  }

  lemma TraceOnce(t: Task, seeds: seq<Node>)
    requires FactsOnce(t.graph.facts)
    ensures NoRepeats(Trace(t, seeds))
  {
    var w := Start(seeds);
    RootsAreSeeds(seeds);
    LevelsTraceOnce(t, w.nodes, w, w.nodes, DeepestOf(w.nodes));
  }

  // ---- Nothing is left unfetched

  lemma {:induction false} KeysTraceAll(t: Task, w: Walk, keys: seq<RuleKey>, frontier: seq<Node>, n: Node, f: Fact,
                                        r: Rule)
    requires forall k :: k in keys ==> HasKey(t.policy.edges, k)
    requires n in frontier && EdgeFrom(t, n, f, r) && KeyOf(r) in keys && !WalkKeys(t, w, keys, frontier).truncated
    ensures Visit(KeyOf(r), EdgeRow(t, n, f, r)) in KeysTrace(t, w, keys, frontier)
    decreases |keys|
  {
    var q := QueryFor(t, keys[0], frontier);
    var w1 := WalkQuery(t, w, q);
    WalkKeysGrows(t, w1, keys[1..], frontier);
    if KeyOf(r) == keys[0] {
      EdgeIsQueried(t, keys[0], frontier, n, f, r);
      UncutQuery(t, w, q);
      RowVisited(keys[0], q.rows, EdgeRow(t, n, f, r));
      assert KeyTrace(t, w, keys[0], frontier) == Visits(keys[0], q.rows);
    } else {
      assert KeyOf(r) in keys[1..];
      KeysTraceAll(t, w1, keys[1..], frontier, n, f, r);
    }
  }

  lemma RowVisited(k: RuleKey, rows: seq<Row>, row: Row)
    requires row in rows
    ensures Visit(k, row) in Visits(k, rows)
  {
    var i :| 0 <= i < |rows| && rows[i] == row;
    assert Visits(k, rows)[i] == Visit(k, row);
  }

  lemma UncutQuery(t: Task, w: Walk, q: Query)
    requires Anchored(q.rows, q.origins) && t.edgeBudget > w.edgesWalked && !WalkQuery(t, w, q).truncated
    ensures Take(q.rows, t.edgeBudget - w.edgesWalked) == q.rows
  {
    var remaining := t.edgeBudget - w.edgesWalked;
    WalkRowsGrows(t, Spend(w, q.rows, remaining), Take(q.rows, remaining), q.origins, q.rule);
  }

  lemma LevelTraceAll(t: Task, w: Walk, frontier: seq<Node>, n: Node, v: Visit)
    requires n in frontier && VisitedFrom(t, n, v) && !WalkLevel(t, w, frontier).truncated
    ensures v in LevelTrace(t, w, frontier)
  {
    var f, r :| EdgeFrom(t, n, f, r) && KeyOf(r) == v.key && v.row == EdgeRow(t, n, f, r);
    EdgeHasKey(t, frontier, n, f, r);
    LevelKeysKnown(t.policy, frontier);
    KeysTraceAll(t, w, LevelKeys(t.policy, frontier), frontier, n, f, r);
  }

  lemma NextDepth(t: Task, w: Walk, frontier: seq<Node>, depth: nat)
    requires forall n :: n in frontier ==> n.depth == depth
    ensures forall n :: n in NextFrontier(w, WalkLevel(t, w, frontier)) ==> n.depth == depth + 1
  {
    LevelKeysKnown(t.policy, frontier);
    WalkKeysDepth(t, w, LevelKeys(t.policy, frontier), frontier, depth);
    NextFrontierIsNew(w, WalkLevel(t, w, frontier));
  }

  lemma AddedIsNext(w: Walk, w': Walk, n: Node)
    requires w.nodes <= w'.nodes && n in w'.nodes && n !in w.nodes
    ensures n in NextFrontier(w, w')
  {
    NextFrontierIsNew(w, w');
    var i :| 0 <= i < |w'.nodes| && w'.nodes[i] == n;
    if i < |w.nodes| {
      assert false;
    }
  }

  lemma {:induction false} LevelsTraceAll(t: Task, w: Walk, frontier: seq<Node>, depth: nat, n: Node, v: Visit)
    requires forall m :: m in frontier ==> m.depth == depth
    requires n in WalkLevels(t, w, frontier, depth).nodes && (n in frontier || n !in w.nodes)
    requires VisitedFrom(t, n, v) && !WalkLevels(t, w, frontier, depth).truncated
    ensures v in LevelsTrace(t, w, frontier, depth)
    decreases t.policy.maxDepth - depth
  {
    if Ends(t, frontier, depth) {
      var f, r :| EdgeFrom(t, n, f, r);
      EdgeHasKey(t, frontier, n, f, r);
    } else {
      var w1 := WalkLevel(t, w, frontier);
      WalkLevelGrows(t, w, frontier);
      WalkLevelsGrows(t, w1, NextFrontier(w, w1), depth + 1);
      if n in frontier {
        LevelTraceAll(t, w, frontier, n, v);
      } else {
        if n in w1.nodes { AddedIsNext(w, w1, n); }
        NextDepth(t, w, frontier, depth);
        LevelsTraceAll(t, w1, NextFrontier(w, w1), depth + 1, n, v);
      }
    }
  }

  /** An untruncated walk fetches exactly the admitted edges out of the nodes it records. */
  lemma TraceIsExact(t: Task, seeds: seq<Node>, d0: nat, v: Visit)
    requires (forall s :: s in seeds ==> s.depth == d0) && !Expanded(t, seeds).truncated
    ensures v in Trace(t, seeds) <==> exists n :: n in Expanded(t, seeds).nodes && VisitedFrom(t, n, v)
  {
    var w := Start(seeds);
    RootsAreSeeds(seeds);
    DeepestOfUniform(w.nodes, d0);
    if v in Trace(t, seeds) {
      var n := LevelsTraceFrom(t, w.nodes, w, w.nodes, DeepestOf(w.nodes), v);
    }
    if n :| n in Expanded(t, seeds).nodes && VisitedFrom(t, n, v) {
      LevelsTraceAll(t, w, w.nodes, DeepestOf(w.nodes), n, v);
    }
  }

  // ---- Which stopped branches share a label

  /** No two stopped branches carry one relation, one fact (or none) and one entity. */
  predicate StopsDiffer(stopped: seq<StoppedBranch>) {
    forall i, j :: 0 <= i < j < |stopped| ==> !SameStop(stopped[i], stopped[j])
  }

  predicate SameStop(a: StoppedBranch, b: StoppedBranch) {
    a.relation == b.relation && a.fact == b.fact && a.id == b.id
  }

  lemma StopsAreLabels(stopped: seq<StoppedBranch>)
    ensures StopsDiffer(stopped) <==> NoRepeats(StopLabels(stopped))
  {
    var ls := StopLabels(stopped);
    forall i, j | 0 <= i < j < |stopped| ensures SameStop(stopped[i], stopped[j]) <==> ls[i] == ls[j] {}
  }

  lemma LabelsRepeat(vs: seq<Visit>)
    requires NoRepeats(vs)
    ensures NoRepeats(LabelsOf(vs)) <==> forall u, v :: u in vs && v in vs && LabelOf(u) == LabelOf(v) ==> u == v
  {
    var ls := LabelsOf(vs);
    if NoRepeats(ls) {
      forall u, v | u in vs && v in vs && LabelOf(u) == LabelOf(v) ensures u == v {
        var i :| 0 <= i < |vs| && vs[i] == u;
        var j :| 0 <= j < |vs| && vs[j] == v;
        assert ls[i] == ls[j];
      }
    } else {
      var i, j :| 0 <= i < j < |ls| && ls[i] == ls[j];
      assert LabelOf(vs[i]) == LabelOf(vs[j]) && vs[i] != vs[j];
    }
  }

  lemma {:induction false} RefusedOnce(p: Policy, vs: seq<Visit>)
    requires NoRepeats(vs)
    ensures NoRepeats(Refused(p, vs))
  {
    if vs != [] {
      var head, rest := vs[0], vs[1..];
      assert vs == [head] + rest;
      forall i | 0 <= i < |rest| ensures rest[i] != head { assert rest[i] == vs[i + 1]; }
      RefusedOnce(p, rest);
      if !Walkable(p, head.row) {
        DistinctHalves([head], Refused(p, rest));
      }
    }
  }

  lemma LabelTwice(vs: seq<Visit>, u: Visit, v: Visit)
    requires u in vs && v in vs && u != v && LabelOf(u) == LabelOf(v)
    ensures !NoRepeats(LabelsOf(vs))
  {
    var i :| 0 <= i < |vs| && vs[i] == u;
    var j :| 0 <= j < |vs| && vs[j] == v;
    var ls := LabelsOf(vs);
    assert ls[i] == ls[j] && i != j;
  }

  lemma StopsFollowTrace(t: Task, seeds: seq<Node>)
    requires !Expanded(t, seeds).truncated
    ensures StopsDiffer(Expanded(t, seeds).stopped) <==> NoRepeats(LabelsOf(Refused(t.policy, Trace(t, seeds))))
  {
    if !Fits(t, seeds) { CutIsFull(t, seeds); }
    RowsAreAccountedFor(t, seeds);
    StopsAreLabels(Expanded(t, seeds).stopped);
  }

  /** Two different rows refused from recorded nodes, of one relation, one fact or none, and one entity. */
  lemma VisitsCollide(t: Task, seeds: seq<Node>, d0: nat, m: Node, u: Visit, n: Node, v: Visit)
    requires (forall s :: s in seeds ==> s.depth == d0) && !Expanded(t, seeds).truncated
    requires m in Expanded(t, seeds).nodes && VisitedFrom(t, m, u) && !Walkable(t.policy, u.row)
    requires n in Expanded(t, seeds).nodes && VisitedFrom(t, n, v) && !Walkable(t.policy, v.row)
    requires u != v && LabelOf(u) == LabelOf(v)
    ensures !StopsDiffer(Expanded(t, seeds).stopped)
  {
    var vs := Refused(t.policy, Trace(t, seeds));
    StopsFollowTrace(t, seeds);
    TraceIsExact(t, seeds, d0, u);
    TraceIsExact(t, seeds, d0, v);
    LabelTwice(vs, u, v);
  }

  /** An edge some rule of this key asks for, refused: what makes a stopped branch, wherever it is met. */
  datatype Refusal = Refusal(key: RuleKey, fact: Fact)

  function RefusalLabel(x: Refusal): StopLabel {
    StopLabel(x.key.relation, if x.fact.evidenced then Some(x.fact.id) else None, Reached(x.key.direction, x.fact))
  }

  function Holder(x: Refusal): EntityId {
    Anchor(x.key.direction, x.fact)
  }

  /**
   * The edge leads out of its entity, at depth `d`, under a rule with its key that admits the entity there, and is
   * ineligible.
   */
  ghost predicate RefusedAt(g: Graph, p: Policy, d: nat, x: Refusal) {
    && x.fact in g.facts && Holder(x) in g.entities
    && (exists r :: r in p.edges && KeyOf(r) == x.key && Admits(p, r, g.entities[Holder(x)].kind, d))
    && Joins(g.entities, FirstRule(p.edges, x.key), {Holder(x)}, x.fact)
    && Eligibility(x.fact.evidenced, x.fact.confidence, p.minimumConfidence).Some?
  }

  ghost predicate LeastDepth(g: Graph, p: Policy, roots: set<EntityId>, d0: nat, x: EntityId, d: nat) {
    Reach(g, p, AsGrouped, roots, d0, x, d) && forall e: nat :: Reach(g, p, AsGrouped, roots, d0, x, e) ==> d <= e
  }

  /** The edge is refused out of an entity the policy reaches, at the least depth it reaches it. */
  ghost predicate Refuses(g: Graph, p: Policy, roots: set<EntityId>, d0: nat, x: Refusal) {
    exists d: nat :: LeastDepth(g, p, roots, d0, Holder(x), d) && RefusedAt(g, p, d, x)
  }

  /** No two refused edges that the policy meets share relation, fact (or its absence) and entity. */
  ghost predicate RefusalsDiffer(g: Graph, p: Policy, roots: set<EntityId>, d0: nat) {
    forall x, y :: Refuses(g, p, roots, d0, x) && Refuses(g, p, roots, d0, y) && RefusalLabel(x) == RefusalLabel(y)
           ==> x == y
  }

  /** Two refused edges share a label in two ways: one fact under two classifications, or no evidence and one target. */
  lemma LabelsShared(g: Graph, p: Policy, roots: set<EntityId>, d0: nat, x: Refusal, y: Refusal)
    requires FactIdsUnique(g.facts) && Refuses(g, p, roots, d0, x) && Refuses(g, p, roots, d0, y) && x != y
    ensures RefusalLabel(x) == RefusalLabel(y) <==>
            || (x.fact == y.fact && x.fact.evidenced && x.key == y.key.(classification := x.key.classification))
            || (!x.fact.evidenced && !y.fact.evidenced && x.key.relation == y.key.relation
                && Reached(x.key.direction, x.fact) == Reached(y.key.direction, y.fact))
  {
    var d: nat :| RefusedAt(g, p, d, x);
    var e: nat :| RefusedAt(g, p, e, y);
  }

  // ---- The walk meets exactly the refusals reachability meets

  function RowFor(t: Task, x: Refusal): Row
    requires HasKey(t.policy.edges, x.key) && Joins(t.graph.entities, FirstRule(t.policy.edges, x.key), {Holder(x)},
                                                    x.fact)
  {
    RowOf(t.graph.entities, FirstRule(t.policy.edges, x.key), {Holder(x)}, x.fact)
  }

  ghost predicate Shows(t: Task, x: Refusal, v: Visit) {
    && HasKey(t.policy.edges, x.key) && Joins(t.graph.entities, FirstRule(t.policy.edges, x.key), {Holder(x)}, x.fact)
    && v == Visit(x.key, RowFor(t, x)) && x.fact in t.graph.facts
  }

  lemma ShownLabel(t: Task, x: Refusal, v: Visit)
    requires Shows(t, x, v)
    ensures LabelOf(v) == RefusalLabel(x) && v.row.origin == Holder(x)
    ensures Walkable(t.policy, v.row) <==> Eligibility(x.fact.evidenced, x.fact.confidence,
                                                       t.policy.minimumConfidence).None?
  {}

  lemma ShownOnce(t: Task, x: Refusal, u: Visit, y: Refusal, v: Visit)
    requires FactIdsUnique(t.graph.facts) && Shows(t, x, u) && Shows(t, y, v)
    ensures u == v <==> x == y
  {}

  lemma ListedLeast(g: Graph, p: Policy, seeds: seq<Node>, d0: nat, nodes: seq<Node>, n: Node, e: nat)
    requires ListsReachable(g, p, AsGrouped, seeds, d0, nodes) && n in nodes
    requires Reach(g, p, AsGrouped, Ids(seeds), d0, n.id, e)
    ensures n.depth <= e
  {
    var m :| m in nodes && m.id == n.id && m.depth <= e;
    var i :| 0 <= i < |nodes| && nodes[i] == m;
    var j :| 0 <= j < |nodes| && nodes[j] == n;
  }

  lemma ExpandedMatch(t: Task, seeds: seq<Node>, d0: nat, n: Node)
    requires WellSeeded(t.graph, seeds, d0) && n in Expanded(t, seeds).nodes
    ensures Matches(t.graph, n)
  {
    ExpandedIsSound(t, seeds);
    RootsAreSeeds(seeds);
    NodesMatch(t, Roots(seeds), Expanded(t, seeds).nodes, d0);
  }

  lemma NodeAtLeastDepth(t: Task, seeds: seq<Node>, d0: nat, n: Node)
    requires WellSeeded(t.graph, seeds, d0) && !Expanded(t, seeds).truncated && n in Expanded(t, seeds).nodes
    ensures LeastDepth(t.graph, t.policy, Ids(seeds), d0, n.id, n.depth) && Matches(t.graph, n)
  {
    UncappedWalkIsGroupedReach(t, seeds, d0);
    ExpandedMatch(t, seeds, d0, n);
    forall e: nat | Reach(t.graph, t.policy, AsGrouped, Ids(seeds), d0, n.id, e) ensures n.depth <= e {
      ListedLeast(t.graph, t.policy, seeds, d0, Expanded(t, seeds).nodes, n, e);
    }
  }

  lemma LeastDepthNode(t: Task, seeds: seq<Node>, d0: nat, x: EntityId, d: nat) returns (n: Node)
    requires WellSeeded(t.graph, seeds, d0) && !Expanded(t, seeds).truncated
    requires LeastDepth(t.graph, t.policy, Ids(seeds), d0, x, d)
    ensures n in Expanded(t, seeds).nodes && n.id == x && n.depth == d
  {
    UncappedWalkIsGroupedReach(t, seeds, d0);
    assert Covers(Expanded(t, seeds).nodes, x, d);
    n :| n in Expanded(t, seeds).nodes && n.id == x && n.depth <= d;
    assert Reach(t.graph, t.policy, AsGrouped, Ids(seeds), d0, n.id, n.depth);
  }

  lemma RefusalIsVisited(t: Task, seeds: seq<Node>, d0: nat, x: Refusal) returns (v: Visit)
    requires WellSeeded(t.graph, seeds, d0) && !Expanded(t, seeds).truncated
    requires Refuses(t.graph, t.policy, Ids(seeds), d0, x)
    ensures Shows(t, x, v) && v in Refused(t.policy, Trace(t, seeds))
  {
    var d: nat :| LeastDepth(t.graph, t.policy, Ids(seeds), d0, Holder(x), d) && RefusedAt(t.graph, t.policy, d, x);
    var n := LeastDepthNode(t, seeds, d0, Holder(x), d);
    NodeAtLeastDepth(t, seeds, d0, n);
    var r :| r in t.policy.edges && KeyOf(r) == x.key && Admits(t.policy, r, t.graph.entities[Holder(x)].kind, d);
    v := Visit(x.key, RowFor(t, x));
    assert EdgeFrom(t, n, x.fact, r) && v.row == EdgeRow(t, n, x.fact, r);
    TraceIsExact(t, seeds, d0, v);
    ShownLabel(t, x, v);
  }

  lemma VisitIsRefusal(t: Task, seeds: seq<Node>, d0: nat, v: Visit) returns (x: Refusal)
    requires WellSeeded(t.graph, seeds, d0) && !Expanded(t, seeds).truncated
    requires v in Refused(t.policy, Trace(t, seeds))
    ensures Shows(t, x, v) && Refuses(t.graph, t.policy, Ids(seeds), d0, x)
  {
    TraceIsExact(t, seeds, d0, v);
    var n :| n in Expanded(t, seeds).nodes && VisitedFrom(t, n, v);
    var f, r :| EdgeFrom(t, n, f, r) && KeyOf(r) == v.key && v.row == EdgeRow(t, n, f, r);
    x := Refusal(v.key, f);
    NodeAtLeastDepth(t, seeds, d0, n);
    assert Holder(x) == n.id;
    ShownLabel(t, x, v);
    assert RefusedAt(t.graph, t.policy, n.depth, x);
  }

  /**
   * The stopped branches of an untruncated walk are told apart exactly when no two different refused edges that the
   * policy meets share a label: every entity is expanded once, at its least depth, so each makes one branch.
   */
  lemma StopsDifferExactly(t: Task, seeds: seq<Node>, d0: nat)
    requires WellSeeded(t.graph, seeds, d0) && FactsOnce(t.graph.facts) && !Expanded(t, seeds).truncated
    ensures StopsDiffer(Expanded(t, seeds).stopped) <==> RefusalsDiffer(t.graph, t.policy, Ids(seeds), d0)
  {
    var vs := Refused(t.policy, Trace(t, seeds));
    StopsFollowTrace(t, seeds);
    TraceOnce(t, seeds);
    RefusedOnce(t.policy, Trace(t, seeds));
    LabelsRepeat(vs);
    OnceIsUnique(t.graph.facts);
    if RefusalsDiffer(t.graph, t.policy, Ids(seeds), d0) {
      forall u, v | u in vs && v in vs && LabelOf(u) == LabelOf(v) ensures u == v {
        var x := VisitIsRefusal(t, seeds, d0, u);
        var y := VisitIsRefusal(t, seeds, d0, v);
        ShownLabel(t, x, u);
        ShownLabel(t, y, v);
        ShownOnce(t, x, u, y, v);
      }
    }
    if forall u, v :: u in vs && v in vs && LabelOf(u) == LabelOf(v) ==> u == v {
      forall x, y | Refuses(t.graph, t.policy, Ids(seeds), d0, x) && Refuses(t.graph, t.policy, Ids(seeds), d0, y)
                    && RefusalLabel(x) == RefusalLabel(y)
        ensures x == y
      {
        var u := RefusalIsVisited(t, seeds, d0, x);
        var v := RefusalIsVisited(t, seeds, d0, y);
        ShownLabel(t, x, u);
        ShownLabel(t, y, v);
        ShownOnce(t, x, u, y, v);
      }
    }
  }

  // ---- The two ways it fails

  /** One edge refused under two classifications of its relation and direction is stopped twice, evidenced or not. */
  lemma TwoClassificationsCollide(t: Task, seeds: seq<Node>, d0: nat, m: Node, f: Fact, r: Rule, r': Rule)
    requires (forall s :: s in seeds ==> s.depth == d0) && !Expanded(t, seeds).truncated
             && m in Expanded(t, seeds).nodes
    requires EdgeFrom(t, m, f, r) && EdgeFrom(t, m, f, r') && r.classification != r'.classification
    requires r.relation == r'.relation && r.direction == r'.direction
    requires Eligibility(f.evidenced, f.confidence, t.policy.minimumConfidence).Some?
    ensures !StopsDiffer(Expanded(t, seeds).stopped)
  {
    VisitsCollide(t, seeds, d0, m, Visit(KeyOf(r), EdgeRow(t, m, f, r)), m, Visit(KeyOf(r'), EdgeRow(t, m, f, r')));
  }

  /** Two recorded entities with evidence-less edges of one relation, under any rules, into one entity. */
  lemma EvidencelessStopsCollide(t: Task, seeds: seq<Node>, d0: nat, m: Node, m': Node, f: Fact, f': Fact, r: Rule,
                                 r': Rule)
    requires (forall s :: s in seeds ==> s.depth == d0) && !Expanded(t, seeds).truncated
    requires m in Expanded(t, seeds).nodes && m' in Expanded(t, seeds).nodes && m.id != m'.id
    requires EdgeFrom(t, m, f, r) && EdgeFrom(t, m', f', r') && !f.evidenced && !f'.evidenced
    requires r.relation == r'.relation && Reached(r.direction, f) == Reached(r'.direction, f')
    ensures !StopsDiffer(Expanded(t, seeds).stopped)
  {
    VisitsCollide(t, seeds, d0, m, Visit(KeyOf(r), EdgeRow(t, m, f, r)), m', Visit(KeyOf(r'), EdgeRow(t, m', f', r')));
  }
}
