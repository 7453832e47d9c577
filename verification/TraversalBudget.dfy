// Budgets: their bounds, when they suffice, and that a smaller one only cuts the result short.

module TraversalBudget {
  import opened Ordering
  import opened Estate
  import opened Traversal
  import opened TraversalSound
  import opened TraversalReach

  // ---- The node budget: seeds are never refused, nothing else exceeds it

  ghost predicate WithinNodes(t: Task, w: Walk, w': Walk) {
    |w'.nodes| <= |w.nodes| || |w'.nodes| <= t.nodeBudget
  }

  lemma {:induction false} WalkRowsWithin(t: Task, w: Walk, rows: seq<Row>, origins: map<EntityId, Node>, r: Rule)
    requires Anchored(rows, origins)
    ensures WithinNodes(t, w, WalkRows(t, w, rows, origins, r))
    decreases |rows|
  {
    if rows != [] {
      var row := rows[0];
      assert row in rows;
      forall q | q in rows[1..] ensures q in rows {}
      match Eligibility(row.evidenced, row.confidence, t.policy.minimumConfidence)
      case Some(reason) =>
        WalkRowsWithin(t, w.(stopped := w.stopped + [StoppedAt(row, origins[row.origin], r, reason)]), rows[1..],
                       origins, r);
      case None =>
        WalkRowsWithin(t, w, rows[1..], origins, r);
        WalkRowsWithin(t, w.(nodes := w.nodes + [NodeAt(row, origins[row.origin], r)]), rows[1..], origins, r);
    }
  }

  lemma WalkQueryWithin(t: Task, w: Walk, q: Query)
    requires Anchored(q.rows, q.origins) && t.edgeBudget > w.edgesWalked
    ensures WithinNodes(t, w, WalkQuery(t, w, q))
  {
    var remaining := t.edgeBudget - w.edgesWalked;
    WalkRowsWithin(t, Spend(w, q.rows, remaining), Take(q.rows, remaining), q.origins, q.rule);
  }

  lemma {:induction false} WalkKeysWithin(t: Task, w: Walk, keys: seq<RuleKey>, frontier: seq<Node>)
    requires forall k :: k in keys ==> HasKey(t.policy.edges, k)
    ensures WithinNodes(t, w, WalkKeys(t, w, keys, frontier))
    decreases |keys|
  {
    if keys != [] && t.edgeBudget - w.edgesWalked > 0 {
      var q := QueryFor(t, keys[0], frontier);
      WalkQueryWithin(t, w, q);
      WalkKeysWithin(t, WalkQuery(t, w, q), keys[1..], frontier);
    }
  }

  lemma {:induction false} WalkLevelsWithin(t: Task, w: Walk, frontier: seq<Node>, depth: nat)
    ensures WithinNodes(t, w, WalkLevels(t, w, frontier, depth))
    decreases t.policy.maxDepth - depth
  {
    if !Ends(t, frontier, depth) {
      var w1 := WalkLevel(t, w, frontier);
      LevelKeysKnown(t.policy, frontier);
      WalkKeysWithin(t, w, LevelKeys(t.policy, frontier), frontier);
      WalkLevelsWithin(t, w1, NextFrontier(w, w1), depth + 1);
    }
  }

  /** The recorded nodes exceed the node budget only as far as the distinct seeds already did. */
  lemma NodeBudgetHolds(t: Task, seeds: seq<Node>)
    ensures var n := |Expanded(t, seeds).nodes|; n <= t.nodeBudget || n <= |Ids(seeds)|
  {
    RootsAreSeeds(seeds);
    IdsCount(Roots(seeds));
    var w := Start(seeds);
    WalkLevelsWithin(t, w, w.nodes, DeepestOf(w.nodes));
  }

  // ---- Budgets that suffice

  /** Edges enough for every key of every level to fetch every fact. */
  function EnoughEdges(g: Graph, p: Policy, d0: nat): nat {
    (if p.maxDepth > d0 then p.maxDepth - d0 else 0) * (|p.edges| * |g.facts|) + 1
  }

  ghost predicate Roomy(t: Task, nodes: seq<Node>) {
    && |t.graph.entities.Keys| <= t.nodeBudget
    && Unique(nodes)
    && Ids(nodes) <= t.graph.entities.Keys
  }

  lemma RoomForOneMore(t: Task, nodes: seq<Node>, id: EntityId)
    requires Roomy(t, nodes) && id in t.graph.entities && id !in Ids(nodes)
    ensures |nodes| < t.nodeBudget
  {
    IdsCount(nodes);
    var used := Ids(nodes) + {id};
    assert used <= t.graph.entities.Keys;
    SubsetSize(used, t.graph.entities.Keys);
  }

  lemma {:induction false} SubsetSize<T>(a: set<T>, b: set<T>)
    requires a <= b
    ensures |a| <= |b|
    decreases a
  {
    if a != {} {
      var x :| x in a;
      SubsetSize(a - {x}, b - {x});
    }
  }

  lemma {:induction false} RoomyRows(t: Task, w: Walk, rows: seq<Row>, origins: map<EntityId, Node>, r: Rule)
    requires Anchored(rows, origins) && Roomy(t, w.nodes) && !w.truncated
    requires forall row :: row in rows ==> row.id in t.graph.entities
    ensures var w' := WalkRows(t, w, rows, origins, r);
            !w'.truncated && Roomy(t, w'.nodes) && w'.edgesWalked == w.edgesWalked
    decreases |rows|
  {
    if rows != [] {
      var row := rows[0];
      assert row in rows;
      forall q | q in rows[1..] ensures q in rows {}
      match Eligibility(row.evidenced, row.confidence, t.policy.minimumConfidence)
      case Some(reason) =>
        RoomyRows(t, w.(stopped := w.stopped + [StoppedAt(row, origins[row.origin], r, reason)]), rows[1..], origins,
                  r);
      case None =>
        if row.id in Ids(w.nodes) {
          RoomyRows(t, w, rows[1..], origins, r);
        } else {
          RoomForOneMore(t, w.nodes, row.id);
          var n := NodeAt(row, origins[row.origin], r);
          RoomyAdd(t, w.nodes, n);
          RoomyRows(t, w.(nodes := w.nodes + [n]), rows[1..], origins, r);
        }
    }
  }

  lemma RoomyAdd(t: Task, nodes: seq<Node>, n: Node)
    requires Roomy(t, nodes) && n.id in t.graph.entities && n.id !in Ids(nodes)
    ensures Roomy(t, nodes + [n])
  {
    forall i | 0 <= i < |nodes| ensures nodes[i].id != n.id { IdsMember(nodes, nodes[i]); }
    assert Ids(nodes + [n]) == Ids(nodes) + {n.id} by {
      assert n in nodes + [n];
      forall m | m in nodes ensures m in nodes + [n] {}
    }
  }

  lemma RoomyQuery(t: Task, w: Walk, q: Query)
    requires Anchored(q.rows, q.origins) && t.edgeBudget - w.edgesWalked > |q.rows|
    requires forall row :: row in q.rows ==> row.id in t.graph.entities
    requires Roomy(t, w.nodes) && !w.truncated
    ensures var w' := WalkQuery(t, w, q);
            !w'.truncated && Roomy(t, w'.nodes) && w'.edgesWalked == w.edgesWalked + |q.rows|
  {
    var remaining := t.edgeBudget - w.edgesWalked;
    RoomyRows(t, Spend(w, q.rows, remaining), Take(q.rows, remaining), q.origins, q.rule);
  }

  lemma QueryStaysInGraph(t: Task, k: RuleKey, frontier: seq<Node>)
    requires HasKey(t.policy.edges, k)
    ensures forall row :: row in QueryFor(t, k, frontier).rows ==> row.id in t.graph.entities
  {
    var q := QueryFor(t, k, frontier);
    AllRowsMembers(t.graph, q.rule, q.origins.Keys);
  }

  /** `n` queries at `per` edges each, kept linear for the induction. */
  ghost function Times(n: nat, per: nat): nat {
    if n == 0 then 0 else per + Times(n - 1, per)
  }

  lemma TimesIsProduct(n: nat, per: nat)
    ensures Times(n, per) == n * per
  {}

  lemma TimesGrows(n: nat, m: nat, per: nat)
    requires n <= m
    ensures Times(n, per) <= Times(m, per)
  {}

  lemma {:induction false} RoomyKeys(t: Task, w: Walk, keys: seq<RuleKey>, frontier: seq<Node>)
    requires forall k :: k in keys ==> HasKey(t.policy.edges, k)
    requires t.edgeBudget - w.edgesWalked > Times(|keys|, |t.graph.facts|)
    requires Roomy(t, w.nodes) && !w.truncated
    ensures var w' := WalkKeys(t, w, keys, frontier);
            !w'.truncated && Roomy(t, w'.nodes) && w'.edgesWalked <= w.edgesWalked + Times(|keys|, |t.graph.facts|)
    decreases |keys|
  {
    if keys != [] {
      var q := QueryFor(t, keys[0], frontier);
      QueryStaysInGraph(t, keys[0], frontier);
      RoomyQuery(t, w, q);
      RoomyKeys(t, WalkQuery(t, w, q), keys[1..], frontier);
    }
  }

  ghost predicate Affords(t: Task, w: Walk, left: nat, per: nat) {
    && per == Times(|t.policy.edges|, |t.graph.facts|)
    && t.edgeBudget - w.edgesWalked > Times(left, per)
    && Roomy(t, w.nodes) && !w.truncated
  }

  lemma RoomyLevel(t: Task, w: Walk, frontier: seq<Node>, left: nat, per: nat)
    requires left > 0 && Affords(t, w, left, per)
    ensures Affords(t, WalkLevel(t, w, frontier), left - 1, per)
  {
    var keys := LevelKeys(t.policy, frontier);
    TimesGrows(|keys|, |t.policy.edges|, |t.graph.facts|);
    LevelKeysKnown(t.policy, frontier);
    RoomyKeys(t, w, keys, frontier);
  }

  lemma {:induction false} RoomyLevels(t: Task, w: Walk, frontier: seq<Node>, depth: nat, left: nat, per: nat)
    requires t.policy.maxDepth <= depth + left && Affords(t, w, left, per)
    ensures !WalkLevels(t, w, frontier, depth).truncated
    decreases left
  {
    if Ends(t, frontier, depth) {
      LevelsEnd(t, w, frontier, depth);
    } else {
      LevelsGoOn(t, w, frontier, depth);
      RoomyLevel(t, w, frontier, left, per);
      var w1 := WalkLevel(t, w, frontier);
      RoomyLevels(t, w1, NextFrontier(w, w1), depth + 1, left - 1, per);
    }
  }

  lemma LevelsEnd(t: Task, w: Walk, frontier: seq<Node>, depth: nat)
    requires Ends(t, frontier, depth)
    ensures WalkLevels(t, w, frontier, depth).truncated == w.truncated
  {}

  lemma LevelsGoOn(t: Task, w: Walk, frontier: seq<Node>, depth: nat)
    requires !Ends(t, frontier, depth)
    ensures depth < t.policy.maxDepth
    ensures var w1 := WalkLevel(t, w, frontier);
            WalkLevels(t, w, frontier, depth) == WalkLevels(t, w1, NextFrontier(w, w1), depth + 1)
  {}

  /** With a node per entity and `EnoughEdges`, nothing is truncated. */
  lemma EnoughBudgetSuffices(t: Task, seeds: seq<Node>, d0: nat)
    requires WellSeeded(t.graph, seeds, d0)
    requires |t.graph.entities.Keys| <= t.nodeBudget && EnoughEdges(t.graph, t.policy, d0) <= t.edgeBudget
    ensures !Expanded(t, seeds).truncated
  {
    RootsAreSeeds(seeds);
    var w := Start(seeds);
    DeepestOfUniform(w.nodes, d0);
    if w.nodes != [] {
      var left := if t.policy.maxDepth > d0 then t.policy.maxDepth - d0 else 0;
      var per := Times(|t.policy.edges|, |t.graph.facts|);
      TimesIsProduct(|t.policy.edges|, |t.graph.facts|);
      TimesIsProduct(left, per);
      RoomyLevels(t, w, w.nodes, d0, left, per);
    }
  }

  // ---- A smaller budget yields a prefix

  ghost predicate Shrinks(t1: Task, t2: Task) {
    && t1.graph == t2.graph && t1.policy == t2.policy
    && t1.nodeBudget <= t2.nodeBudget && t1.edgeBudget <= t2.edgeBudget
  }

  ghost predicate Frozen(t: Task, w: Walk) {
    |w.nodes| >= t.nodeBudget || w.edgesWalked >= t.edgeBudget
  }

  /** The two walks have not parted yet. */
  ghost predicate Aligned(w1: Walk, w2: Walk) {
    w1.nodes == w2.nodes && w1.edgesWalked == w2.edgesWalked
  }

  ghost predicate StaysBehind(t1: Task, w1: Walk, w2: Walk) {
    w1.nodes <= w2.nodes && (Aligned(w1, w2) || Frozen(t1, w1))
  }

  lemma {:induction false} FullNodesStay(t: Task, w: Walk, rows: seq<Row>, origins: map<EntityId, Node>, r: Rule)
    requires Anchored(rows, origins) && |w.nodes| >= t.nodeBudget
    ensures WalkRows(t, w, rows, origins, r).nodes == w.nodes
    decreases |rows|
  {
    if rows != [] {
      var row := rows[0];
      assert row in rows;
      forall q | q in rows[1..] ensures q in rows {}
      match Eligibility(row.evidenced, row.confidence, t.policy.minimumConfidence)
      case Some(reason) =>
        FullNodesStay(t, w.(stopped := w.stopped + [StoppedAt(row, origins[row.origin], r, reason)]), rows[1..],
                      origins, r);
      case None =>
        FullNodesStay(t, w, rows[1..], origins, r);
    }
  }

  lemma FrozenQuery(t: Task, w: Walk, q: Query)
    requires Anchored(q.rows, q.origins) && t.edgeBudget > w.edgesWalked && Frozen(t, w)
    ensures var w' := WalkQuery(t, w, q); w'.nodes == w.nodes && Frozen(t, w')
  {
    var remaining := t.edgeBudget - w.edgesWalked;
    FullNodesStay(t, Spend(w, q.rows, remaining), Take(q.rows, remaining), q.origins, q.rule);
  }

  lemma {:induction false} FrozenKeys(t: Task, w: Walk, keys: seq<RuleKey>, frontier: seq<Node>)
    requires forall k :: k in keys ==> HasKey(t.policy.edges, k)
    requires Frozen(t, w)
    ensures var w' := WalkKeys(t, w, keys, frontier); w'.nodes == w.nodes && Frozen(t, w')
    decreases |keys|
  {
    if keys != [] && t.edgeBudget - w.edgesWalked > 0 {
      var q := QueryFor(t, keys[0], frontier);
      FrozenQuery(t, w, q);
      FrozenKeys(t, WalkQuery(t, w, q), keys[1..], frontier);
    }
  }

  lemma {:induction false} FrozenLevels(t: Task, w: Walk, frontier: seq<Node>, depth: nat)
    requires Frozen(t, w)
    ensures WalkLevels(t, w, frontier, depth).nodes == w.nodes
    decreases t.policy.maxDepth - depth
  {
    if !Ends(t, frontier, depth) {
      var w1 := WalkLevel(t, w, frontier);
      LevelKeysKnown(t.policy, frontier);
      FrozenKeys(t, w, LevelKeys(t.policy, frontier), frontier);
      FrozenLevels(t, w1, NextFrontier(w, w1), depth + 1);
    }
  }

  lemma {:induction false} RowsPrefix(t1: Task, t2: Task, w1: Walk, w2: Walk, rows1: seq<Row>, rows2: seq<Row>,
                                      origins: map<EntityId, Node>, r: Rule)
    requires Shrinks(t1, t2) && w1.nodes == w2.nodes && rows1 <= rows2
    requires Anchored(rows1, origins) && Anchored(rows2, origins)
    ensures var v1, v2 := WalkRows(t1, w1, rows1, origins, r), WalkRows(t2, w2, rows2, origins, r);
            v1.nodes <= v2.nodes && (v1.nodes == v2.nodes || |v1.nodes| >= t1.nodeBudget || rows1 != rows2)
    decreases |rows1|
  {
    WalkRowsGrows(t2, w2, rows2, origins, r);
    if rows1 != [] {
      var row := rows1[0];
      assert row == rows2[0] && row in rows1 && row in rows2;
      forall q | q in rows1[1..] ensures q in rows1 {}
      forall q | q in rows2[1..] ensures q in rows2 {}
      assert rows1 == [row] + rows1[1..] && rows2 == [row] + rows2[1..];
      match Eligibility(row.evidenced, row.confidence, t1.policy.minimumConfidence)
      case Some(reason) =>
        var s := StoppedAt(row, origins[row.origin], r, reason);
        RowsPrefix(t1, t2, w1.(stopped := w1.stopped + [s]), w2.(stopped := w2.stopped + [s]), rows1[1..], rows2[1..],
                   origins, r);
      case None =>
        if row.id in Ids(w1.nodes) {
          RowsPrefix(t1, t2, w1, w2, rows1[1..], rows2[1..], origins, r);
        } else if |w1.nodes| < t1.nodeBudget {
          var n := NodeAt(row, origins[row.origin], r);
          RowsPrefix(t1, t2, w1.(nodes := w1.nodes + [n]), w2.(nodes := w2.nodes + [n]), rows1[1..], rows2[1..],
                     origins, r);
        }
    }
  }

  lemma TakesPrefix<T>(all: seq<T>, m1: int, m2: int)
    requires 0 <= m1 <= m2
    ensures Take(all, m1) <= Take(all, m2)
    ensures Take(all, m1) == Take(all, m2) || (|Take(all, m1)| == m1 && |all| > m1)
  {}

  lemma QueryPrefix(t1: Task, t2: Task, w1: Walk, w2: Walk, q: Query)
    requires Shrinks(t1, t2) && Aligned(w1, w2)
    requires Anchored(q.rows, q.origins) && t1.edgeBudget > w1.edgesWalked
    ensures StaysBehind(t1, WalkQuery(t1, w1, q), WalkQuery(t2, w2, q))
  {
    var m1, m2 := t1.edgeBudget - w1.edgesWalked, t2.edgeBudget - w2.edgesWalked;
    TakesPrefix(q.rows, m1, m2);
    WalkQueryGrows(t1, w1, q);
    WalkQueryGrows(t2, w2, q);
    RowsPrefix(t1, t2, Spend(w1, q.rows, m1), Spend(w2, q.rows, m2), Take(q.rows, m1), Take(q.rows, m2), q.origins,
               q.rule);
  }

  lemma {:induction false} KeysPrefix(t1: Task, t2: Task, w1: Walk, w2: Walk, keys: seq<RuleKey>, frontier: seq<Node>)
    requires forall k :: k in keys ==> HasKey(t1.policy.edges, k)
    requires Shrinks(t1, t2) && Aligned(w1, w2)
    ensures StaysBehind(t1, WalkKeys(t1, w1, keys, frontier), WalkKeys(t2, w2, keys, frontier))
    decreases |keys|
  {
    WalkKeysGrows(t2, w2, keys, frontier);
    if keys != [] && t1.edgeBudget - w1.edgesWalked > 0 {
      var q := QueryFor(t1, keys[0], frontier);
      assert q == QueryFor(t2, keys[0], frontier);
      QueryPrefix(t1, t2, w1, w2, q);
      var v1, v2 := WalkQuery(t1, w1, q), WalkQuery(t2, w2, q);
      if Aligned(v1, v2) {
        KeysPrefix(t1, t2, v1, v2, keys[1..], frontier);
      } else {
        FrozenKeys(t1, v1, keys[1..], frontier);
        WalkKeysGrows(t2, v2, keys[1..], frontier);
      }
    }
  }

  lemma LevelPrefix(t1: Task, t2: Task, w1: Walk, w2: Walk, frontier: seq<Node>)
    requires Shrinks(t1, t2) && Aligned(w1, w2)
    ensures StaysBehind(t1, WalkLevel(t1, w1, frontier), WalkLevel(t2, w2, frontier))
  {
    LevelKeysKnown(t1.policy, frontier);
    KeysPrefix(t1, t2, w1, w2, LevelKeys(t1.policy, frontier), frontier);
  }

  lemma LevelApart(t1: Task, t2: Task, w1: Walk, v1: Walk, w2: Walk, v2: Walk, depth: nat)
    requires Shrinks(t1, t2) && Frozen(t1, v1) && v1.nodes <= v2.nodes
    ensures WalkLevels(t1, v1, NextFrontier(w1, v1), depth).nodes
            <= WalkLevels(t2, v2, NextFrontier(w2, v2), depth).nodes
  {
    FrozenLevels(t1, v1, NextFrontier(w1, v1), depth);
    WalkLevelsGrows(t2, v2, NextFrontier(w2, v2), depth);
  }

  lemma {:induction false} LevelsPrefix(t1: Task, t2: Task, w1: Walk, w2: Walk, frontier: seq<Node>, depth: nat)
    requires Shrinks(t1, t2) && Aligned(w1, w2)
    ensures WalkLevels(t1, w1, frontier, depth).nodes <= WalkLevels(t2, w2, frontier, depth).nodes
    decreases t1.policy.maxDepth - depth
  {
    if !Ends(t1, frontier, depth) {
      LevelPrefix(t1, t2, w1, w2, frontier);
      var v1, v2 := WalkLevel(t1, w1, frontier), WalkLevel(t2, w2, frontier);
      if Aligned(v1, v2) {
        LevelsPrefix(t1, t2, v1, v2, NextFrontier(w1, v1), depth + 1);
      } else {
        LevelApart(t1, t2, w1, v1, w2, v2, depth + 1);
      }
    }
  }

  /** The nodes under smaller budgets are a prefix of the nodes under larger ones. */
  lemma SmallerBudgetIsPrefix(t1: Task, t2: Task, seeds: seq<Node>)
    requires Shrinks(t1, t2)
    ensures Expanded(t1, seeds).nodes <= Expanded(t2, seeds).nodes
  {
    var w := Start(seeds);
    LevelsPrefix(t1, t2, w, w, w.nodes, DeepestOf(w.nodes));
  }

  // ---- A budget that the walk does not use up does not cut it

  /** Same graph, policy; nothing about the budgets. */
  ghost predicate SameSubject(t1: Task, t2: Task) {
    t1.graph == t2.graph && t1.policy == t2.policy
  }

  lemma {:induction false} RowsUnspent(t1: Task, t2: Task, w: Walk, rows: seq<Row>, origins: map<EntityId, Node>,
                                       r: Rule)
    requires SameSubject(t1, t2) && Anchored(rows, origins) && !WalkRows(t2, w, rows, origins, r).truncated
    requires |WalkRows(t2, w, rows, origins, r).nodes| <= t1.nodeBudget
    ensures WalkRows(t1, w, rows, origins, r) == WalkRows(t2, w, rows, origins, r)
    decreases |rows|
  {
    if rows != [] {
      var row := rows[0];
      assert row in rows;
      forall q | q in rows[1..] ensures q in rows {}
      match Eligibility(row.evidenced, row.confidence, t1.policy.minimumConfidence)
      case Some(reason) =>
        RowsUnspent(t1, t2, w.(stopped := w.stopped + [StoppedAt(row, origins[row.origin], r, reason)]), rows[1..],
                    origins, r);
      case None =>
        if row.id in Ids(w.nodes) {
          RowsUnspent(t1, t2, w, rows[1..], origins, r);
        } else {
          var w1 := w.(nodes := w.nodes + [NodeAt(row, origins[row.origin], r)]);
          WalkRowsGrows(t2, w1, rows[1..], origins, r);
          RowsUnspent(t1, t2, w1, rows[1..], origins, r);
        }
    }
  }

  lemma QueryUnspent(t1: Task, t2: Task, w: Walk, q: Query)
    requires SameSubject(t1, t2) && Anchored(q.rows, q.origins) && t2.edgeBudget > w.edgesWalked
    requires var v := WalkQuery(t2, w, q);
             !v.truncated && |v.nodes| <= t1.nodeBudget && v.edgesWalked < t1.edgeBudget
    ensures w.edgesWalked < t1.edgeBudget && WalkQuery(t1, w, q) == WalkQuery(t2, w, q)
  {
    WalkQueryGrows(t2, w, q);
    var left1, left2 := t1.edgeBudget - w.edgesWalked, t2.edgeBudget - w.edgesWalked;
    WalkRowsGrows(t2, Spend(w, q.rows, left2), Take(q.rows, left2), q.origins, q.rule);
    assert |q.rows| <= left2;
    assert Take(q.rows, left1) == q.rows == Take(q.rows, left2);
    RowsUnspent(t1, t2, Spend(w, q.rows, left2), q.rows, q.origins, q.rule);
  }

  lemma {:induction false} KeysUnspent(t1: Task, t2: Task, w: Walk, keys: seq<RuleKey>, frontier: seq<Node>)
    requires SameSubject(t1, t2) && forall k :: k in keys ==> HasKey(t1.policy.edges, k)
    requires var v := WalkKeys(t2, w, keys, frontier);
             !v.truncated && |v.nodes| <= t1.nodeBudget && v.edgesWalked < t1.edgeBudget
    ensures WalkKeys(t1, w, keys, frontier) == WalkKeys(t2, w, keys, frontier)
    decreases |keys|
  {
    if keys != [] {
      var q := QueryFor(t2, keys[0], frontier);
      assert q == QueryFor(t1, keys[0], frontier);
      var v := WalkQuery(t2, w, q);
      WalkKeysGrows(t2, v, keys[1..], frontier);
      QueryUnspent(t1, t2, w, q);
      KeysUnspent(t1, t2, v, keys[1..], frontier);
    }
  }

  lemma {:induction false} LevelsUnspent(t1: Task, t2: Task, w: Walk, frontier: seq<Node>, depth: nat)
    requires SameSubject(t1, t2)
    requires var v := WalkLevels(t2, w, frontier, depth);
             !v.truncated && |v.nodes| <= t1.nodeBudget && v.edgesWalked < t1.edgeBudget
    ensures WalkLevels(t1, w, frontier, depth) == WalkLevels(t2, w, frontier, depth)
    decreases t1.policy.maxDepth - depth
  {
    if !Ends(t2, frontier, depth) {
      var v := WalkLevel(t2, w, frontier);
      WalkLevelsGrows(t2, v, NextFrontier(w, v), depth + 1);
      LevelKeysKnown(t2.policy, frontier);
      KeysUnspent(t1, t2, w, LevelKeys(t2.policy, frontier), frontier);
      LevelsUnspent(t1, t2, v, NextFrontier(w, v), depth + 1);
    }
  }

  /**
   * What a walk that nothing cut would need is enough: with that many nodes and one edge to spare it is the same
   * walk.
   */
  lemma UnspentBudgetSuffices(t1: Task, t2: Task, seeds: seq<Node>)
    requires SameSubject(t1, t2) && !Expanded(t2, seeds).truncated
    requires |Expanded(t2, seeds).nodes| <= t1.nodeBudget && Expanded(t2, seeds).edgesWalked < t1.edgeBudget
    ensures Expanded(t1, seeds) == Expanded(t2, seeds)
  {
    var w := Start(seeds);
    LevelsUnspent(t1, t2, w, w.nodes, DeepestOf(w.nodes));
  }
}
