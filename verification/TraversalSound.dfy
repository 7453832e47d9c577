// Soundness and shape: what the walk adds is grown, node by node, along edges the policy admits.

module TraversalSound {
  import opened Ordering
  import opened Estate
  import opened Traversal

  /** Fact `f` leads out of `m` under a rule with `r`'s key that admits `m`, past the filter the engine applies. */
  ghost predicate EdgeFrom(t: Task, m: Node, f: Fact, r: Rule) {
    && f in t.graph.facts && r in t.policy.edges
    && Admits(t.policy, r, m.kind, m.depth)
    && Joins(t.graph.entities, FirstRule(t.policy.edges, KeyOf(r)), {m.id}, f)
  }

  ghost function EdgeRow(t: Task, m: Node, f: Fact, r: Rule): Row
    requires EdgeFrom(t, m, f, r)
  {
    RowOf(t.graph.entities, FirstRule(t.policy.edges, KeyOf(r)), {m.id}, f)
  }

  ghost predicate Follows(t: Task, m: Node, n: Node, f: Fact, r: Rule) {
    && EdgeFrom(t, m, f, r)
    && Eligibility(f.evidenced, f.confidence, t.policy.minimumConfidence).None?
    && n == NodeAt(EdgeRow(t, m, f, r), m, FirstRule(t.policy.edges, KeyOf(r)))
  }

  ghost predicate Halts(t: Task, m: Node, s: StoppedBranch, f: Fact, r: Rule) {
    && EdgeFrom(t, m, f, r)
    && var e := Eligibility(f.evidenced, f.confidence, t.policy.minimumConfidence);
       e.Some? && s == StoppedAt(EdgeRow(t, m, f, r), m, FirstRule(t.policy.edges, KeyOf(r)), e.value)
  }

  /** The branch was stopped at an ineligible edge out of `m`, for the reason eligibility gives. */
  ghost predicate HaltedFrom(t: Task, m: Node, s: StoppedBranch) {
    exists f, r :: Halts(t, m, s, f, r)
  }

  ghost predicate StopsSound(t: Task, w: Walk) {
    forall s :: s in w.stopped ==> exists m :: m in w.nodes && HaltedFrom(t, m, s)
  }

  /** `n` is what following an eligible admitted edge out of `m` yields. */
  ghost predicate GrownFrom(t: Task, m: Node, n: Node) {
    exists f, r :: Follows(t, m, n, f, r)
  }

  ghost predicate Unique(nodes: seq<Node>) {
    forall i, j :: 0 <= i < j < |nodes| ==> nodes[i].id != nodes[j].id
  }

  ghost predicate GrownAt(t: Task, nodes: seq<Node>, i: nat)
    requires i < |nodes|
  {
    exists j :: 0 <= j < i && GrownFrom(t, nodes[j], nodes[i])
  }

  /** The node list is the seeds followed by nodes each grown from an earlier one, no entity twice. */
  ghost predicate Sound(t: Task, roots: seq<Node>, nodes: seq<Node>) {
    && roots <= nodes
    && Unique(nodes)
    && forall i :: |roots| <= i < |nodes| ==> GrownAt(t, nodes, i)
  }

  ghost predicate Grows(w: Walk, w': Walk) {
    && w.nodes <= w'.nodes && w.stopped <= w'.stopped
    && (w.truncated ==> w'.truncated)
    && w.edgesWalked <= w'.edgesWalked
  }

  lemma IdsMember(nodes: seq<Node>, n: Node)
    requires n in nodes
    ensures n.id in Ids(nodes)
  {}

  lemma AddSound(t: Task, roots: seq<Node>, nodes: seq<Node>, m: Node, n: Node)
    requires Sound(t, roots, nodes) && m in nodes && GrownFrom(t, m, n) && n.id !in Ids(nodes)
    ensures Sound(t, roots, nodes + [n])
  {
    var all := nodes + [n];
    forall i | 0 <= i < |nodes| ensures nodes[i].id != n.id {
      IdsMember(nodes, nodes[i]);
    }
    forall i | |roots| <= i < |all| ensures GrownAt(t, all, i) {
      if i < |nodes| {
        assert GrownAt(t, nodes, i);
        var j :| 0 <= j < i && GrownFrom(t, nodes[j], nodes[i]);
        assert GrownFrom(t, all[j], all[i]);
      } else {
        var j :| 0 <= j < |nodes| && nodes[j] == m;
        assert GrownFrom(t, all[j], all[i]);
      }
    }
  }

  ghost predicate RowJoined(t: Task, k: RuleKey, origins: set<EntityId>, row: Row)
    requires HasKey(t.policy.edges, k)
  {
    var first := FirstRule(t.policy.edges, k);
    exists f :: f in t.graph.facts && Joins(t.graph.entities, first, origins, f)
                && row == RowOf(t.graph.entities, first, origins, f)
  }

  /** The query is that of key `k`, its rows come from it, and its origins are nodes that key admits. */
  ghost predicate Queried(t: Task, nodes: seq<Node>, q: Query, k: RuleKey) {
    && HasKey(t.policy.edges, k) && q.rule == FirstRule(t.policy.edges, k)
    && Anchored(q.rows, q.origins)
    && (forall row :: row in q.rows ==> RowJoined(t, k, q.origins.Keys, row))
    && (forall o :: o in q.origins ==>
          q.origins[o].id == o && q.origins[o] in nodes && AdmitsKey(t.policy, k, q.origins[o]))
  }

  lemma RowIsEdge(t: Task, nodes: seq<Node>, q: Query, k: RuleKey, row: Row) returns (f: Fact, r: Rule)
    requires Queried(t, nodes, q, k) && row in q.rows
    ensures var m := q.origins[row.origin];
            m in nodes && EdgeFrom(t, m, f, r) && EdgeRow(t, m, f, r) == row
              && q.rule == FirstRule(t.policy.edges, KeyOf(r))
    ensures row.evidenced == f.evidenced && row.confidence == f.confidence
  {
    assert RowJoined(t, k, q.origins.Keys, row);
    f :| f in t.graph.facts && Joins(t.graph.entities, q.rule, q.origins.Keys, f)
         && row == RowOf(t.graph.entities, q.rule, q.origins.Keys, f);
    var m := q.origins[row.origin];
    assert AdmitsKey(t.policy, k, m);
    r :| r in t.policy.edges && KeyOf(r) == k && Admits(t.policy, r, m.kind, m.depth);
  }

  lemma RowGrows(t: Task, nodes: seq<Node>, q: Query, k: RuleKey, row: Row)
    requires Queried(t, nodes, q, k) && row in q.rows
    requires Eligibility(row.evidenced, row.confidence, t.policy.minimumConfidence).None?
    ensures q.origins[row.origin] in nodes
    ensures GrownFrom(t, q.origins[row.origin], NodeAt(row, q.origins[row.origin], q.rule))
  {
    var f, r := RowIsEdge(t, nodes, q, k, row);
    assert Follows(t, q.origins[row.origin], NodeAt(row, q.origins[row.origin], q.rule), f, r);
  }

  lemma RowHalts(t: Task, nodes: seq<Node>, q: Query, k: RuleKey, row: Row, reason: StopReason)
    requires Queried(t, nodes, q, k) && row in q.rows
    requires Eligibility(row.evidenced, row.confidence, t.policy.minimumConfidence) == Some(reason)
    ensures q.origins[row.origin] in nodes
    ensures HaltedFrom(t, q.origins[row.origin], StoppedAt(row, q.origins[row.origin], q.rule, reason))
  {
    var f, r := RowIsEdge(t, nodes, q, k, row);
    assert Halts(t, q.origins[row.origin], StoppedAt(row, q.origins[row.origin], q.rule, reason), f, r);
  }

  lemma {:induction false} WalkRowsGrows(t: Task, w: Walk, rows: seq<Row>, origins: map<EntityId, Node>, r: Rule)
    requires Anchored(rows, origins)
    ensures var w' := WalkRows(t, w, rows, origins, r); Grows(w, w') && w'.edgesWalked == w.edgesWalked
    decreases |rows|
  {
    if rows != [] {
      var row := rows[0];
      assert row in rows;
      forall q | q in rows[1..] ensures q in rows {}
      match Eligibility(row.evidenced, row.confidence, t.policy.minimumConfidence)
      case Some(reason) =>
        WalkRowsGrows(t, w.(stopped := w.stopped + [StoppedAt(row, origins[row.origin], r, reason)]), rows[1..],
                      origins, r);
      case None =>
        WalkRowsGrows(t, w, rows[1..], origins, r);
        WalkRowsGrows(t, w.(nodes := w.nodes + [NodeAt(row, origins[row.origin], r)]), rows[1..], origins, r);
    }
  }

  lemma {:induction false} WalkRowsSound(t: Task, roots: seq<Node>, w: Walk, rows: seq<Row>, q: Query, k: RuleKey)
    requires Sound(t, roots, w.nodes) && Queried(t, w.nodes, q, k)
    requires forall row :: row in rows ==> row in q.rows
    ensures Sound(t, roots, WalkRows(t, w, rows, q.origins, q.rule).nodes)
    decreases |rows|
  {
    if rows != [] {
      var row := rows[0];
      assert row in rows;
      forall u | u in rows[1..] ensures u in rows {}
      var origin := q.origins[row.origin];
      match Eligibility(row.evidenced, row.confidence, t.policy.minimumConfidence)
      case Some(reason) =>
        WalkRowsSound(t, roots, w.(stopped := w.stopped + [StoppedAt(row, origin, q.rule, reason)]), rows[1..], q, k);
      case None =>
        if row.id in Ids(w.nodes) {
          WalkRowsSound(t, roots, w, rows[1..], q, k);
        } else if |w.nodes| < t.nodeBudget {
          RowGrows(t, w.nodes, q, k, row);
          AddSound(t, roots, w.nodes, origin, NodeAt(row, origin, q.rule));
          WalkRowsSound(t, roots, w.(nodes := w.nodes + [NodeAt(row, origin, q.rule)]), rows[1..], q, k);
        }
    }
  }

  lemma {:induction false} OriginsAre(p: Policy, k: RuleKey, frontier: seq<Node>)
    ensures forall o :: o in Origins(p, k, frontier) ==>
      var n := Origins(p, k, frontier)[o]; n.id == o && n in frontier && AdmitsKey(p, k, n)
    ensures forall n :: n in frontier && AdmitsKey(p, k, n) ==> n.id in Origins(p, k, frontier)
    decreases |frontier|
  {
    if frontier != [] {
      var front := frontier[..|frontier|-1];
      OriginsAre(p, k, front);
      assert frontier == front + [frontier[|frontier|-1]];
    }
  }

  lemma QueryOfKey(t: Task, nodes: seq<Node>, frontier: seq<Node>, k: RuleKey)
    requires HasKey(t.policy.edges, k)
    requires forall n :: n in frontier ==> n in nodes
    ensures Queried(t, nodes, QueryFor(t, k, frontier), k)
  {
    var q := QueryFor(t, k, frontier);
    AllRowsMembers(t.graph, q.rule, q.origins.Keys);
    OriginsAre(t.policy, k, frontier);
    forall row | row in q.rows ensures RowJoined(t, k, q.origins.Keys, row) {}
  }

  lemma WalkQueryGrows(t: Task, w: Walk, q: Query)
    requires Anchored(q.rows, q.origins) && t.edgeBudget > w.edgesWalked
    ensures Grows(w, WalkQuery(t, w, q))
    ensures WalkQuery(t, w, q).edgesWalked == w.edgesWalked + |Take(q.rows, t.edgeBudget - w.edgesWalked)|
  {
    var remaining := t.edgeBudget - w.edgesWalked;
    WalkRowsGrows(t, Spend(w, q.rows, remaining), Take(q.rows, remaining), q.origins, q.rule);
  }

  lemma WalkQuerySound(t: Task, roots: seq<Node>, w: Walk, q: Query, k: RuleKey)
    requires t.edgeBudget > w.edgesWalked
    requires Sound(t, roots, w.nodes) && Queried(t, w.nodes, q, k)
    ensures Sound(t, roots, WalkQuery(t, w, q).nodes)
  {
    var remaining := t.edgeBudget - w.edgesWalked;
    WalkRowsSound(t, roots, Spend(w, q.rows, remaining), Take(q.rows, remaining), q, k);
  }

  lemma {:induction false} WalkKeysSound(t: Task, roots: seq<Node>, w: Walk, keys: seq<RuleKey>, frontier: seq<Node>)
    requires forall k :: k in keys ==> HasKey(t.policy.edges, k)
    requires Sound(t, roots, w.nodes) && forall n :: n in frontier ==> n in w.nodes
    ensures var w' := WalkKeys(t, w, keys, frontier);
            Sound(t, roots, w'.nodes) && Grows(w, w')
            && w'.edgesWalked <= (if w.edgesWalked > t.edgeBudget then w.edgesWalked
                                  else if t.edgeBudget > 0 then t.edgeBudget else 0)
    decreases |keys|
  {
    if keys != [] && t.edgeBudget - w.edgesWalked > 0 {
      var q := QueryFor(t, keys[0], frontier);
      QueryOfKey(t, w.nodes, frontier, keys[0]);
      WalkQuerySound(t, roots, w, q, keys[0]);
      WalkQueryGrows(t, w, q);
      var w1 := WalkQuery(t, w, q);
      forall n | n in frontier ensures n in w1.nodes { assert n in w.nodes; }
      WalkKeysSound(t, roots, w1, keys[1..], frontier);
    }
  }

  // ---- Growth without further hypotheses

  lemma {:induction false} WalkKeysGrows(t: Task, w: Walk, keys: seq<RuleKey>, frontier: seq<Node>)
    requires forall k :: k in keys ==> HasKey(t.policy.edges, k)
    ensures Grows(w, WalkKeys(t, w, keys, frontier))
    decreases |keys|
  {
    if keys != [] && t.edgeBudget - w.edgesWalked > 0 {
      var q := QueryFor(t, keys[0], frontier);
      WalkQueryGrows(t, w, q);
      WalkKeysGrows(t, WalkQuery(t, w, q), keys[1..], frontier);
    }
  }

  lemma WalkLevelGrows(t: Task, w: Walk, frontier: seq<Node>)
    ensures Grows(w, WalkLevel(t, w, frontier))
  {
    LevelKeysKnown(t.policy, frontier);
    WalkKeysGrows(t, w, LevelKeys(t.policy, frontier), frontier);
  }

  lemma {:induction false} WalkLevelsGrows(t: Task, w: Walk, frontier: seq<Node>, depth: nat)
    ensures Grows(w, WalkLevels(t, w, frontier, depth))
    decreases t.policy.maxDepth - depth
  {
    if !Ends(t, frontier, depth) {
      var w1 := WalkLevel(t, w, frontier);
      WalkLevelGrows(t, w, frontier);
      WalkLevelsGrows(t, w1, NextFrontier(w, w1), depth + 1);
    }
  }

  lemma NextFrontierIsNew(w: Walk, w': Walk)
    requires w.nodes <= w'.nodes
    ensures forall n :: n in NextFrontier(w, w') <==> n in w'.nodes[|w.nodes|..]
    ensures forall n :: n in NextFrontier(w, w') ==> n in w'.nodes
    ensures NextFrontier(w, w') == [] <==> |w'.nodes| == |w.nodes|
  {
    SortKeepsMembers(w'.nodes[|w.nodes|..], NodeOrder);
  }

  lemma {:induction false} WalkLevelsSound(t: Task, roots: seq<Node>, w: Walk, frontier: seq<Node>, depth: nat)
    requires Sound(t, roots, w.nodes) && forall n :: n in frontier ==> n in w.nodes
    ensures var w' := WalkLevels(t, w, frontier, depth);
            Sound(t, roots, w'.nodes) && Grows(w, w')
            && w'.edgesWalked <= (if w.edgesWalked > t.edgeBudget then w.edgesWalked
                                  else if t.edgeBudget > 0 then t.edgeBudget else 0)
    decreases t.policy.maxDepth - depth
  {
    if !Ends(t, frontier, depth) {
      LevelKeysKnown(t.policy, frontier);
      WalkKeysSound(t, roots, w, LevelKeys(t.policy, frontier), frontier);
      var w1 := WalkLevel(t, w, frontier);
      NextFrontierIsNew(w, w1);
      WalkLevelsSound(t, roots, w1, NextFrontier(w, w1), depth + 1);
    }
  }

  lemma {:induction false} DistinctIsUnique(seeds: seq<Node>)
    ensures Unique(Distinct(seeds)) && Ids(Distinct(seeds)) == Ids(seeds)
    ensures forall n :: n in Distinct(seeds) ==> n in seeds
    ensures |Distinct(seeds)| <= |seeds|
    decreases |seeds|
  {
    if seeds != [] {
      var front, last := seeds[..|seeds|-1], seeds[|seeds|-1];
      DistinctIsUnique(front);
      assert seeds == front + [last];
      var d := Distinct(front);
      assert Ids(seeds) == Ids(front) + {last.id} by {
        forall n | n in seeds ensures n in front || n == last {}
      }
      if last.id !in Ids(d) {
        forall i | 0 <= i < |d| ensures d[i].id != last.id { IdsMember(d, d[i]); }
        assert Ids(d + [last]) == Ids(d) + {last.id};
      } else {
        assert last.id in Ids(front);
      }
    }
  }

  ghost function Roots(seeds: seq<Node>): seq<Node> {
    Start(seeds).nodes
  }

  lemma RootsAreSeeds(seeds: seq<Node>)
    ensures forall n :: n in Roots(seeds) ==> n in seeds
    ensures Ids(Roots(seeds)) == Ids(seeds)
    ensures Unique(Roots(seeds)) && |Roots(seeds)| <= |seeds|
  {
    DistinctIsUnique(SortBy(seeds, NodeOrder));
    SortKeepsMembers(seeds, NodeOrder);
  }

  /** Soundness: under any budgets, every node past the seeds is grown from an earlier one, and no entity repeats. */
  lemma ExpandedIsSound(t: Task, seeds: seq<Node>)
    ensures Sound(t, Roots(seeds), Expanded(t, seeds).nodes)
    ensures Grows(Start(seeds), Expanded(t, seeds))
  {
    RootsAreSeeds(seeds);
    var w := Start(seeds);
    WalkLevelsSound(t, w.nodes, w, w.nodes, DeepestOf(w.nodes));
  }

  // ---- Stopped branches

  lemma StopsGrow(t: Task, w: Walk, w': Walk)
    requires StopsSound(t, w) && w.nodes <= w'.nodes && w'.stopped == w.stopped
    ensures StopsSound(t, w')
  {
    forall s | s in w'.stopped ensures exists m :: m in w'.nodes && HaltedFrom(t, m, s) {
      var m :| m in w.nodes && HaltedFrom(t, m, s);
      assert m in w'.nodes;
    }
  }

  lemma {:induction false} WalkRowsStops(t: Task, w: Walk, rows: seq<Row>, q: Query, k: RuleKey)
    requires StopsSound(t, w) && Queried(t, w.nodes, q, k)
    requires forall row :: row in rows ==> row in q.rows
    ensures StopsSound(t, WalkRows(t, w, rows, q.origins, q.rule))
    decreases |rows|
  {
    if rows != [] {
      var row := rows[0];
      assert row in rows;
      forall u | u in rows[1..] ensures u in rows {}
      var origin := q.origins[row.origin];
      match Eligibility(row.evidenced, row.confidence, t.policy.minimumConfidence)
      case Some(reason) =>
        RowHalts(t, w.nodes, q, k, row, reason);
        WalkRowsStops(t, w.(stopped := w.stopped + [StoppedAt(row, origin, q.rule, reason)]), rows[1..], q, k);
      case None =>
        if row.id in Ids(w.nodes) {
          WalkRowsStops(t, w, rows[1..], q, k);
        } else if |w.nodes| < t.nodeBudget {
          var w1 := w.(nodes := w.nodes + [NodeAt(row, origin, q.rule)]);
          StopsGrow(t, w, w1);
          WalkRowsStops(t, w1, rows[1..], q, k);
        }
    }
  }

  lemma WalkQueryStops(t: Task, w: Walk, q: Query, k: RuleKey)
    requires StopsSound(t, w) && Queried(t, w.nodes, q, k) && t.edgeBudget > w.edgesWalked
    ensures StopsSound(t, WalkQuery(t, w, q))
  {
    var remaining := t.edgeBudget - w.edgesWalked;
    StopsGrow(t, w, Spend(w, q.rows, remaining));
    WalkRowsStops(t, Spend(w, q.rows, remaining), Take(q.rows, remaining), q, k);
  }

  lemma {:induction false} WalkKeysStops(t: Task, w: Walk, keys: seq<RuleKey>, frontier: seq<Node>)
    requires forall k :: k in keys ==> HasKey(t.policy.edges, k)
    requires StopsSound(t, w) && forall n :: n in frontier ==> n in w.nodes
    ensures StopsSound(t, WalkKeys(t, w, keys, frontier)) && w.nodes <= WalkKeys(t, w, keys, frontier).nodes
    decreases |keys|
  {
    if keys != [] && t.edgeBudget - w.edgesWalked > 0 {
      var q := QueryFor(t, keys[0], frontier);
      QueryOfKey(t, w.nodes, frontier, keys[0]);
      WalkQueryStops(t, w, q, keys[0]);
      WalkQueryGrows(t, w, q);
      forall n | n in frontier ensures n in WalkQuery(t, w, q).nodes { assert n in w.nodes; }
      WalkKeysStops(t, WalkQuery(t, w, q), keys[1..], frontier);
    }
  }

  lemma {:induction false} WalkLevelsStops(t: Task, w: Walk, frontier: seq<Node>, depth: nat)
    requires StopsSound(t, w) && forall n :: n in frontier ==> n in w.nodes
    ensures StopsSound(t, WalkLevels(t, w, frontier, depth))
    decreases t.policy.maxDepth - depth
  {
    if !Ends(t, frontier, depth) {
      LevelKeysKnown(t.policy, frontier);
      WalkKeysStops(t, w, LevelKeys(t.policy, frontier), frontier);
      var w1 := WalkLevel(t, w, frontier);
      NextFrontierIsNew(w, w1);
      WalkLevelsStops(t, w1, NextFrontier(w, w1), depth + 1);
    }
  }

  /** Every recorded STOP is an ineligible edge, admitted by the policy, out of a recorded node. */
  lemma ExpandedStopsAreSound(t: Task, seeds: seq<Node>)
    ensures StopsSound(t, Expanded(t, seeds))
  {
    var w := Start(seeds);
    WalkLevelsStops(t, w, w.nodes, DeepestOf(w.nodes));
  }

  // ---- Budgets

  /** No run walks more edges than its budget. */
  lemma EdgeBudgetHolds(t: Task, seeds: seq<Node>)
    ensures Expanded(t, seeds).edgesWalked <= if t.edgeBudget > 0 then t.edgeBudget else 0
  {
    RootsAreSeeds(seeds);
    var w := Start(seeds);
    WalkLevelsSound(t, w.nodes, w, w.nodes, DeepestOf(w.nodes));
  }

  lemma {:induction false} IdsCount(nodes: seq<Node>)
    requires Unique(nodes)
    ensures |Ids(nodes)| == |nodes|
    decreases |nodes|
  {
    if nodes != [] {
      var front, last := nodes[..|nodes|-1], nodes[|nodes|-1];
      IdsCount(front);
      assert nodes == front + [last];
      assert Ids(nodes) == Ids(front) + {last.id} by {
        forall n | n in nodes ensures n in front || n == last {}
      }
      assert last.id !in Ids(front);
    }
  }

  lemma {:induction false} CountIsUnique(nodes: seq<Node>)
    requires |Ids(nodes)| == |nodes|
    ensures Unique(nodes)
    decreases |nodes|
  {
    if nodes != [] {
      var front, last := nodes[..|nodes|-1], nodes[|nodes|-1];
      assert nodes == front + [last];
      assert Ids(nodes) == Ids(front) + {last.id} by {
        forall n | n in nodes ensures n in front || n == last {}
      }
      AtMostCount(front);
      CountIsUnique(front);
      forall i | 0 <= i < |front| ensures front[i].id != last.id {
        assert front[i] in front;
      }
    }
  }

  lemma {:induction false} AtMostCount(nodes: seq<Node>)
    ensures |Ids(nodes)| <= |nodes|
    decreases |nodes|
  {
    if nodes != [] {
      var front, last := nodes[..|nodes|-1], nodes[|nodes|-1];
      assert nodes == front + [last];
      assert Ids(nodes) == Ids(front) + {last.id} by {
        forall n | n in nodes ensures n in front || n == last {}
      }
      AtMostCount(front);
    }
  }
}
