// What a layered, budgeted walk over the fact graph computes, as a function of graph, policy, seeds and budgets.

module Traversal {
  import opened Ordering
  import opened Estate

  datatype Node = Node(id: EntityId, kind: string, key: Option<string>, depth: nat, classification: Classification,
                       weight: real, relation: Option<string>, origin: Option<EntityId>, fact: Option<FactId>,
                       confidence: real, path: seq<EntityId>)

  datatype StoppedBranch = StoppedBranch(id: EntityId, kind: string, depth: nat, relation: string, reason: StopReason,
                                         fact: Option<FactId>, confidence: real, path: seq<EntityId>)

  datatype Limit = TraversalBudget | MaxDepth

  datatype Walk = Walk(nodes: seq<Node>, stopped: seq<StoppedBranch>, limitations: seq<Limit>,
                       truncated: bool, edgesWalked: nat)

  /** Everything `expand` is given besides its seeds. */
  datatype Task = Task(graph: Graph, policy: Policy, nodeBudget: int, edgeBudget: int)

  function NodeOrder(n: Node): Key {
    TextKey(if n.key.Some? then n.key.value else "") + [n.id]
  }

  function Ids(nodes: seq<Node>): set<EntityId> {
    set n | n in nodes :: n.id
  }

  function Note(codes: seq<Limit>, code: Limit): seq<Limit> {
    if code in codes then codes else codes + [code]
  }

  function Truncate(w: Walk): Walk {
    w.(truncated := true, limitations := Note(w.limitations, TraversalBudget))
  }

  // ---- Seeds

  /** The first seed of each entity, in the order given. */
  function Distinct(seeds: seq<Node>): seq<Node> {
    if seeds == [] then []
    else
      var front := Distinct(seeds[..|seeds|-1]);
      var last := seeds[|seeds|-1];
      if last.id in Ids(front) then front else front + [last]
  }

  function Start(seeds: seq<Node>): Walk {
    Walk(Distinct(SortBy(seeds, NodeOrder)), [], [], false, 0)
  }

  function DeepestOf(nodes: seq<Node>): nat {
    if nodes == [] then 0
    else var rest := DeepestOf(nodes[1..]); if nodes[0].depth > rest then nodes[0].depth else rest
  }

  // ---- One level: the rule keys that admit a frontier node, each with the nodes it admits

  predicate AdmitsKey(p: Policy, k: RuleKey, n: Node) {
    exists r :: r in p.edges && KeyOf(r) == k && Admits(p, r, n.kind, n.depth)
  }

  predicate AdmitsSome(p: Policy, k: RuleKey, frontier: seq<Node>) {
    exists n :: n in frontier && AdmitsKey(p, k, n)
  }

  function KeysAmong(p: Policy, edges: seq<Rule>, frontier: seq<Node>): (ks: seq<RuleKey>)
    ensures forall k :: k in ks <==> HasKey(edges, k) && AdmitsSome(p, k, frontier)
    ensures forall i, j :: 0 <= i < j < |ks| ==> ks[i] != ks[j]
    ensures |ks| <= |edges|
  {
    if edges == [] then []
    else
      var k, rest := KeyOf(edges[0]), KeysAmong(p, edges[1..], frontier);
      assert edges == [edges[0]] + edges[1..];
      assert forall q :: HasKey(edges, q) <==> q == k || HasKey(edges[1..], q);
      if k in rest || !AdmitsSome(p, k, frontier) then rest else [k] + rest
  }

  function LevelKeys(p: Policy, frontier: seq<Node>): (ks: seq<RuleKey>)
    ensures |ks| <= |p.edges|
  {
    SortBy(KeysAmong(p, p.edges, frontier), RuleOrder)
  }

  function Origins(p: Policy, k: RuleKey, frontier: seq<Node>): map<EntityId, Node> {
    if frontier == [] then map[]
    else
      var m := Origins(p, k, frontier[..|frontier|-1]);
      var n := frontier[|frontier|-1];
      if AdmitsKey(p, k, n) then m[n.id := n] else m
  }

  function NodeAt(row: Row, origin: Node, r: Rule): Node {
    Node(row.id, row.kind, row.key, origin.depth + 1, r.classification, r.weight, Some(r.relation),
         Some(origin.id), Some(row.fact), row.confidence, origin.path + [row.id])
  }

  function StoppedAt(row: Row, origin: Node, r: Rule, reason: StopReason): StoppedBranch {
    StoppedBranch(row.id, row.kind, origin.depth + 1, r.relation, reason,
                  if row.evidenced then Some(row.fact) else None, row.confidence, origin.path + [row.id])
  }

  ghost predicate Anchored(rows: seq<Row>, origins: map<EntityId, Node>) {
    forall row :: row in rows ==> row.origin in origins
  }

  /** The rows of one rule, in order, until one does not fit the node budget. */
  function WalkRows(t: Task, w: Walk, rows: seq<Row>, origins: map<EntityId, Node>, r: Rule): Walk
    requires Anchored(rows, origins)
    decreases |rows|
  {
    if rows == [] then w
    else
      var row, origin := rows[0], origins[rows[0].origin];
      match Eligibility(row.evidenced, row.confidence, t.policy.minimumConfidence)
      case Some(reason) =>
        WalkRows(t, w.(stopped := w.stopped + [StoppedAt(row, origin, r, reason)]), rows[1..], origins, r)
      case None =>
        if row.id in Ids(w.nodes) then WalkRows(t, w, rows[1..], origins, r)
        else if |w.nodes| >= t.nodeBudget then Truncate(w)
        else WalkRows(t, w.(nodes := w.nodes + [NodeAt(row, origin, r)]), rows[1..], origins, r)
  }

  /** Spending the edge budget on one query: what is left of the rows, and whether any were cut. */
  function Spend(w: Walk, all: seq<Row>, remaining: nat): Walk {
    var cut := if |all| > remaining then Truncate(w) else w;
    cut.(edgesWalked := w.edgesWalked + |Take(all, remaining)|)
  }

  /** One edge query: the rule it runs, the nodes it starts from, and all it finds, in order, before any limit. */
  datatype Query = Query(rule: Rule, origins: map<EntityId, Node>, rows: seq<Row>)

  function QueryFor(t: Task, k: RuleKey, frontier: seq<Node>): (q: Query)
    requires HasKey(t.policy.edges, k)
    ensures Anchored(q.rows, q.origins) && |q.rows| <= |t.graph.facts|
  {
    var r, origins := FirstRule(t.policy.edges, k), Origins(t.policy, k, frontier);
    AllRowsMembers(t.graph, r, origins.Keys);
    Query(r, origins, AllRows(t.graph, r, origins.Keys))
  }

  function WalkQuery(t: Task, w: Walk, q: Query): Walk
    requires Anchored(q.rows, q.origins) && t.edgeBudget > w.edgesWalked
  {
    var remaining := t.edgeBudget - w.edgesWalked;
    WalkRows(t, Spend(w, q.rows, remaining), Take(q.rows, remaining), q.origins, q.rule)
  }

  function WalkKeys(t: Task, w: Walk, keys: seq<RuleKey>, frontier: seq<Node>): Walk
    requires forall k :: k in keys ==> HasKey(t.policy.edges, k)
    decreases |keys|
  {
    if keys == [] then w
    else if t.edgeBudget - w.edgesWalked <= 0 then Truncate(w)
    else WalkKeys(t, WalkQuery(t, w, QueryFor(t, keys[0], frontier)), keys[1..], frontier)
  }

  function WalkLevel(t: Task, w: Walk, frontier: seq<Node>): Walk {
    LevelKeysKnown(t.policy, frontier);
    WalkKeys(t, w, LevelKeys(t.policy, frontier), frontier)
  }

  lemma LevelKeysKnown(p: Policy, frontier: seq<Node>)
    ensures forall k :: k in LevelKeys(p, frontier) <==> HasKey(p.edges, k) && AdmitsSome(p, k, frontier)
  {
    SortKeepsMembers(KeysAmong(p, p.edges, frontier), RuleOrder);
  }

  // ---- All levels

  /** The nodes a level added, in the order the next level takes them up. */
  function NextFrontier(before: Walk, after: Walk): seq<Node> {
    if |before.nodes| <= |after.nodes| then SortBy(after.nodes[|before.nodes|..], NodeOrder) else []
  }

  function Finish(t: Task, w: Walk, frontier: seq<Node>, depth: nat): Walk {
    if frontier != [] && depth >= t.policy.maxDepth && "MAX_DEPTH" in t.policy.stopConditions
    then w.(limitations := Note(w.limitations, MaxDepth)) else w
  }

  /** The loop over levels stops: nothing to expand, the depth bound, or no rule that admits the frontier. */
  predicate Ends(t: Task, frontier: seq<Node>, depth: nat) {
    frontier == [] || depth >= t.policy.maxDepth || LevelKeys(t.policy, frontier) == []
  }

  function WalkLevels(t: Task, w: Walk, frontier: seq<Node>, depth: nat): Walk
    decreases t.policy.maxDepth - depth
  {
    if Ends(t, frontier, depth) then Finish(t, w, frontier, depth)
    else
      var w' := WalkLevel(t, w, frontier);
      WalkLevels(t, w', NextFrontier(w, w'), depth + 1)
  }

  function Expanded(t: Task, seeds: seq<Node>): Walk {
    var w := Start(seeds);
    WalkLevels(t, w, w.nodes, DeepestOf(w.nodes))
  }
}
