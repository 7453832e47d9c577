// Of all the edges that lead to an entity from the level above, the one its node is recorded across.

module TraversalChoice {
  import opened Ordering
  import opened Estate
  import opened Traversal
  import opened TraversalSound
  import opened TraversalReach
  import opened TraversalPlain

  // ---- The order of a level, in plain terms

  function DirectionName(d: Direction): string {
    if d == Inbound then "INBOUND" else "OUTBOUND"
  }

  function ClassificationName(c: Classification): string {
    match c
    case Direct => "DIRECT"
    case Transitive => "TRANSITIVE"
    case Context => "CONTEXT"
    case Stop => "STOP"
    case Informational => "INFORMATIONAL"
  }

  /** Rules are taken up in the order of their relation, direction and classification as texts. */
  predicate RuleBefore(a: Rule, b: Rule) {
    || TextBefore(a.relation, b.relation)
    || (a.relation == b.relation && TextBefore(DirectionName(a.direction), DirectionName(b.direction)))
    || (a.relation == b.relation && a.direction == b.direction
        && TextBefore(ClassificationName(a.classification), ClassificationName(b.classification)))
  }

  /** And under one rule the edges into one entity in the order of where they come from, then of their facts. */
  predicate EdgeBefore(g: Graph, m: Node, r: Rule, f: Fact, m': Node, r': Rule, f': Fact)
    requires m.id in g.entities && m'.id in g.entities
  {
    var k, k' := g.entities[m.id].key, g.entities[m'.id].key;
    RuleBefore(r, r') || (SameTriple(r, r') && (NullableBefore(k, k') || (k == k' && f.id < f'.id)))
  }

  lemma NamesCompare(a: string, b: string)
    requires a != [] && b != [] && a[0] != b[0]
    ensures TextBefore(a, b) <==> a[0] < b[0]
  {
    HeadsDecide(a, b);
  }

  lemma DirectionsCompare(a: Direction, b: Direction)
    ensures TextBefore(DirectionName(a), DirectionName(b)) <==> a == Inbound && b == Outbound
  {
    if a != b { NamesCompare(DirectionName(a), DirectionName(b)); } else { NotBeforeItself(DirectionName(a)); }
  }

  lemma NotBeforeItself(s: string)
    ensures !TextBefore(s, s)
  {
    TextDecides(s, s, [], []);
    LessIrreflexive(TextKey(s) + []);
  }

  lemma ClassificationsCompare(a: Classification, b: Classification, m: int, n: int)
    requires RuleOrder(RuleKey("", Inbound, a)) == [0, 0, m] && RuleOrder(RuleKey("", Inbound, b)) == [0, 0, n]
    ensures TextBefore(ClassificationName(a), ClassificationName(b)) <==> m < n
  {
    assert TextKey("") == [0];
    assert RuleOrder(RuleKey("", Inbound, a))[2] == m && RuleOrder(RuleKey("", Inbound, b))[2] == n;
    if a != b {
      NamesCompare(ClassificationName(a), ClassificationName(b));
    } else {
      NotBeforeItself(ClassificationName(a));
    }
  }

  lemma RuleOrderReads(a: Rule, b: Rule)
    ensures Less(RuleOrder(KeyOf(a)), RuleOrder(KeyOf(b))) <==> RuleBefore(a, b)
  {
    var ka, kb := RuleOrder(KeyOf(a)), RuleOrder(KeyOf(b));
    var i, j := |TextKey(a.relation)|, |TextKey(b.relation)|;
    TextDecides(a.relation, b.relation, ka[i..], kb[j..]);
    assert ka == TextKey(a.relation) + ka[i..] && kb == TextKey(b.relation) + kb[j..];
    var m, n := ka[i + 1], kb[j + 1];
    assert ka[i..] == [ka[i]] + [m] && kb[j..] == [kb[j]] + [n];
    NumberDecides(ka[i], kb[j], [m], [n]);
    NumberDecides(m, n, [], []);
    DirectionsCompare(a.direction, b.direction);
    assert RuleOrder(RuleKey("", Inbound, a.classification)) == [0, 0, m];
    assert RuleOrder(RuleKey("", Inbound, b.classification)) == [0, 0, n];
    ClassificationsCompare(a.classification, b.classification, m, n);
  }

  /** Rows into one entity compare by origin and fact. */
  lemma RowOrderReads(a: Row, b: Row)
    requires a.id == b.id && a.key == b.key
    ensures Less(RowOrder(a), RowOrder(b))
            <==> NullableBefore(a.originKey, b.originKey) || (a.originKey == b.originKey && a.fact < b.fact)
  {
    var ta, tb := [a.id] + [a.fact], [b.id] + [b.fact];
    NumberDecides(a.fact, b.fact, [], []);
    NumberDecides(a.id, b.id, [a.fact], [b.fact]);
    NullableDecides(a.key, b.key, ta, tb);
    NullableDecides(a.originKey, b.originKey, NullableKey(a.key) + ta, NullableKey(b.key) + tb);
    RowOrderSplits(a);
    RowOrderSplits(b);
    NotBeforeNullable(a.key);
  }

  lemma RowOrderSplits(a: Row)
    ensures RowOrder(a) == NullableKey(a.originKey) + (NullableKey(a.key) + ([a.id] + [a.fact]))
  {}

  lemma NotBeforeNullable(s: Option<string>)
    ensures !NullableBefore(s, s)
  {
    if s.Some? { NotBeforeItself(s.value); }
  }

  // ---- One query

  predicate Passes(t: Task, row: Row) {
    Eligibility(row.evidenced, row.confidence, t.policy.minimumConfidence).None?
  }

  /** Row `i` is the first eligible one into the entity of `n`, and `n` is what it yields. */
  ghost predicate Yields(t: Task, rows: seq<Row>, i: nat, origins: map<EntityId, Node>, r: Rule, n: Node) {
    && i < |rows| && Passes(t, rows[i]) && rows[i].origin in origins
    && n == NodeAt(rows[i], origins[rows[i].origin], r)
    && forall j :: 0 <= j < i && Passes(t, rows[j]) ==> rows[j].id != n.id
  }

  ghost predicate YieldedBy(t: Task, rows: seq<Row>, origins: map<EntityId, Node>, r: Rule, n: Node) {
    exists i: nat :: Yields(t, rows, i, origins, r, n)
  }

  lemma YieldedLater(t: Task, rows: seq<Row>, origins: map<EntityId, Node>, r: Rule, n: Node)
    requires rows != [] && YieldedBy(t, rows[1..], origins, r, n) && (Passes(t, rows[0]) ==> rows[0].id != n.id)
    ensures YieldedBy(t, rows, origins, r, n)
  {
    var i: nat :| Yields(t, rows[1..], i, origins, r, n);
    forall j | 0 <= j < i + 1 && Passes(t, rows[j]) ensures rows[j].id != n.id {
      if j > 0 { assert rows[j] == rows[1..][j - 1]; }
    }
    assert Yields(t, rows, i + 1, origins, r, n);
  }

  lemma {:induction false} RowsYield(t: Task, w: Walk, rows: seq<Row>, origins: map<EntityId, Node>, r: Rule, n: Node)
    requires Anchored(rows, origins) && n in WalkRows(t, w, rows, origins, r).nodes && n.id !in Ids(w.nodes)
    ensures YieldedBy(t, rows, origins, r, n)
    decreases |rows|
  {
    if rows != [] {
      var row := rows[0];
      assert row in rows;
      forall q | q in rows[1..] ensures q in rows {}
      var origin := origins[row.origin];
      match Eligibility(row.evidenced, row.confidence, t.policy.minimumConfidence)
      case Some(reason) =>
        RowsYield(t, w.(stopped := w.stopped + [StoppedAt(row, origin, r, reason)]), rows[1..], origins, r, n);
        YieldedLater(t, rows, origins, r, n);
      case None =>
        if row.id in Ids(w.nodes) {
          RowsYield(t, w, rows[1..], origins, r, n);
          YieldedLater(t, rows, origins, r, n);
        } else if |w.nodes| < t.nodeBudget {
          RowsYieldNew(t, w, rows, origins, r, n);
        }
    }
  }

  lemma {:induction false} RowsYieldNew(t: Task, w: Walk, rows: seq<Row>, origins: map<EntityId, Node>, r: Rule,
                                        n: Node)
    requires Anchored(rows, origins) && n in WalkRows(t, w, rows, origins, r).nodes && n.id !in Ids(w.nodes)
    requires rows != [] && Passes(t, rows[0]) && rows[0].id !in Ids(w.nodes) && |w.nodes| < t.nodeBudget
    ensures YieldedBy(t, rows, origins, r, n)
    decreases |rows|, 0
  {
    var row := rows[0];
    assert row in rows;
    forall q | q in rows[1..] ensures q in rows {}
    var node := NodeAt(row, origins[row.origin], r);
    var w1 := w.(nodes := w.nodes + [node]);
    assert WalkRows(t, w, rows, origins, r) == WalkRows(t, w1, rows[1..], origins, r);
    if n == node {
      assert Yields(t, rows, 0, origins, r, n);
    } else if n.id == row.id {
      assert node in w1.nodes;
      WalkRowsGrows(t, w1, rows[1..], origins, r);
      NoSecondNode(t, w1, rows[1..], origins, r, n);
    } else {
      assert n.id !in Ids(w1.nodes);
      RowsYield(t, w1, rows[1..], origins, r, n);
      YieldedLater(t, rows, origins, r, n);
    }
  }

  /** An entity that is recorded gets no second node. */
  lemma {:induction false} NoSecondNode(t: Task, w: Walk, rows: seq<Row>, origins: map<EntityId, Node>, r: Rule,
                                        n: Node)
    requires Anchored(rows, origins) && n.id in Ids(w.nodes) && n in WalkRows(t, w, rows, origins, r).nodes
    ensures n in w.nodes
    decreases |rows|
  {
    if rows != [] {
      var row := rows[0];
      assert row in rows;
      forall q | q in rows[1..] ensures q in rows {}
      var origin := origins[row.origin];
      match Eligibility(row.evidenced, row.confidence, t.policy.minimumConfidence)
      case Some(reason) =>
        NoSecondNode(t, w.(stopped := w.stopped + [StoppedAt(row, origin, r, reason)]), rows[1..], origins, r, n);
      case None =>
        if row.id in Ids(w.nodes) {
          NoSecondNode(t, w, rows[1..], origins, r, n);
        } else if |w.nodes| < t.nodeBudget {
          var w1 := w.(nodes := w.nodes + [NodeAt(row, origin, r)]);
          GrowIds(w.nodes, w1.nodes);
          NoSecondNode(t, w1, rows[1..], origins, r, n);
        }
    }
  }

  // ---- One level

  /** An eligible admitted edge out of `m` into entity `y`. */
  ghost predicate EdgeTo(t: Task, m: Node, f: Fact, r: Rule, y: EntityId) {
    EdgeFrom(t, m, f, r) && Passes(t, EdgeRow(t, m, f, r)) && EdgeRow(t, m, f, r).id == y
  }

  ghost predicate Prior(t: Task, m: Node, f: Fact, r: Rule, m': Node, f': Fact, r': Rule)
    requires EdgeFrom(t, m, f, r) && EdgeFrom(t, m', f', r')
  {
    || Less(RuleOrder(KeyOf(r)), RuleOrder(KeyOf(r')))
    || (KeyOf(r) == KeyOf(r') && Less(RowOrder(EdgeRow(t, m, f, r)), RowOrder(EdgeRow(t, m', f', r'))))
  }

  /** Following `f` out of `m` yields `n`, and no edge into it out of the frontier under one of the keys is prior. */
  ghost predicate Least(t: Task, frontier: seq<Node>, keys: seq<RuleKey>, n: Node, m: Node, f: Fact, r: Rule) {
    && m in frontier && KeyOf(r) in keys && Follows(t, m, n, f, r)
    && forall m', f', r' :: m' in frontier && EdgeTo(t, m', f', r', n.id) && KeyOf(r') in keys
                            ==> !Prior(t, m', f', r', m, f, r)
  }

  ghost predicate Chosen(t: Task, frontier: seq<Node>, keys: seq<RuleKey>, n: Node) {
    exists m, f, r :: Least(t, frontier, keys, n, m, f, r)
  }

  /** Rows of one query: the first one into an entity is prior to none of the others. */
  lemma FirstRowIsLeast(t: Task, rows: seq<Row>, i: nat, row: Row)
    requires Sorted(rows, RowOrder) && i < |rows| && row in rows && Passes(t, row) && row.id == rows[i].id
    requires forall j :: 0 <= j < i && Passes(t, rows[j]) ==> rows[j].id != rows[i].id
    ensures !Less(RowOrder(row), RowOrder(rows[i]))
  {
    var j :| 0 <= j < |rows| && rows[j] == row;
    if j == i { LessIrreflexive(RowOrder(row)); }
  }

  lemma QueryIsSorted(t: Task, k: RuleKey, frontier: seq<Node>)
    requires HasKey(t.policy.edges, k)
    ensures Sorted(QueryFor(t, k, frontier).rows, RowOrder)
  {
    var q := QueryFor(t, k, frontier);
    SortSorts(Join(t.graph.entities, t.graph.facts, q.rule, q.origins.Keys), RowOrder);
  }

  lemma YieldIsLeast(t: Task, k: RuleKey, frontier: seq<Node>, i: nat, n: Node) returns (m: Node, f: Fact, r: Rule)
    requires HasKey(t.policy.edges, k) && Unique(frontier)
    requires Yields(t, QueryFor(t, k, frontier).rows, i, QueryFor(t, k, frontier).origins,
                    QueryFor(t, k, frontier).rule, n)
    ensures Least(t, frontier, [k], n, m, f, r)
  {
    var q := QueryFor(t, k, frontier);
    QueryOfKey(t, frontier, frontier, k);
    QueryIsSorted(t, k, frontier);
    m := q.origins[q.rows[i].origin];
    f, r := RowIsEdge(t, frontier, q, k, q.rows[i]);
    forall m', f', r' | m' in frontier && EdgeTo(t, m', f', r', n.id) && KeyOf(r') in [k]
      ensures !Prior(t, m', f', r', m, f, r)
    {
      EdgeIsQueried(t, k, frontier, m', f', r');
      FirstRowIsLeast(t, q.rows, i, EdgeRow(t, m', f', r'));
      LessIrreflexive(RuleOrder(k));
    }
  }

  lemma QueryYields(t: Task, w: Walk, k: RuleKey, frontier: seq<Node>, n: Node)
    requires HasKey(t.policy.edges, k) && Unique(frontier) && t.edgeBudget > w.edgesWalked
    requires n in WalkQuery(t, w, QueryFor(t, k, frontier)).nodes && n.id !in Ids(w.nodes)
    ensures Chosen(t, frontier, [k], n)
  {
    var q, remaining := QueryFor(t, k, frontier), t.edgeBudget - w.edgesWalked;
    RowsYield(t, Spend(w, q.rows, remaining), Take(q.rows, remaining), q.origins, q.rule, n);
    var i: nat :| Yields(t, Take(q.rows, remaining), i, q.origins, q.rule, n);
    assert Take(q.rows, remaining) <= q.rows;
    assert Yields(t, q.rows, i, q.origins, q.rule, n);
    var m, f, r := YieldIsLeast(t, k, frontier, i, n);
  }

  lemma ChosenFirst(t: Task, frontier: seq<Node>, keys: seq<RuleKey>, n: Node)
    requires keys != [] && Sorted(keys, k => RuleOrder(k)) && Chosen(t, frontier, [keys[0]], n)
    ensures Chosen(t, frontier, keys, n)
  {
    var m, f, r :| Least(t, frontier, [keys[0]], n, m, f, r);
    forall m', f', r' | m' in frontier && EdgeTo(t, m', f', r', n.id) && KeyOf(r') in keys
      ensures !Prior(t, m', f', r', m, f, r)
    {
      if KeyOf(r') != keys[0] {
        var j :| 0 <= j < |keys| && keys[j] == KeyOf(r');
      } else {
        assert KeyOf(r') in [keys[0]];
      }
    }
    assert Least(t, frontier, keys, n, m, f, r);
  }

  lemma ChosenLater(t: Task, frontier: seq<Node>, keys: seq<RuleKey>, n: Node)
    requires keys != [] && Chosen(t, frontier, keys[1..], n)
    requires forall m, f, r :: m in frontier && KeyOf(r) == keys[0] ==> !EdgeTo(t, m, f, r, n.id)
    ensures Chosen(t, frontier, keys, n)
  {
    var m, f, r :| Least(t, frontier, keys[1..], n, m, f, r);
    assert keys == [keys[0]] + keys[1..];
    assert Least(t, frontier, keys, n, m, f, r);
  }

  /** What an untruncated query finds an eligible edge into is recorded after it. */
  lemma QueryRecords(t: Task, w: Walk, k: RuleKey, frontier: seq<Node>, m: Node, f: Fact, r: Rule, y: EntityId)
    requires HasKey(t.policy.edges, k) && Unique(frontier) && t.edgeBudget > w.edgesWalked
    requires m in frontier && KeyOf(r) == k && EdgeTo(t, m, f, r, y)
    requires !WalkQuery(t, w, QueryFor(t, k, frontier)).truncated
    ensures y in Ids(WalkQuery(t, w, QueryFor(t, k, frontier)).nodes)
  {
    EdgeIsQueried(t, k, frontier, m, f, r);
    QueryAbsorbs(t, w, QueryFor(t, k, frontier), EdgeRow(t, m, f, r));
  }

  lemma {:induction false} KeysChoose(t: Task, w: Walk, keys: seq<RuleKey>, frontier: seq<Node>, n: Node)
    requires forall k :: k in keys ==> HasKey(t.policy.edges, k)
    requires Unique(frontier) && Sorted(keys, k => RuleOrder(k)) && !WalkKeys(t, w, keys, frontier).truncated
    requires n in WalkKeys(t, w, keys, frontier).nodes && n.id !in Ids(w.nodes)
    ensures Chosen(t, frontier, keys, n)
    decreases |keys|
  {
    if keys != [] {
      var q := QueryFor(t, keys[0], frontier);
      var w1 := WalkQuery(t, w, q);
      WalkKeysGrows(t, w1, keys[1..], frontier);
      if n.id in Ids(w1.nodes) {
        SameNode(t, w1, keys[1..], frontier, n);
        QueryYields(t, w, keys[0], frontier, n);
        ChosenFirst(t, frontier, keys, n);
      } else {
        SortedTail(keys, k => RuleOrder(k));
        KeysChoose(t, w1, keys[1..], frontier, n);
        forall m, f, r | m in frontier && KeyOf(r) == keys[0] ensures !EdgeTo(t, m, f, r, n.id) {
          if EdgeTo(t, m, f, r, n.id) { QueryRecords(t, w, keys[0], frontier, m, f, r, n.id); }
        }
        ChosenLater(t, frontier, keys, n);
      }
    }
  }

  lemma QueryAddsNoSecond(t: Task, w: Walk, q: Query, n: Node)
    requires Anchored(q.rows, q.origins) && t.edgeBudget > w.edgesWalked
    requires n in WalkQuery(t, w, q).nodes && n.id in Ids(w.nodes)
    ensures n in w.nodes
  {
    var remaining := t.edgeBudget - w.edgesWalked;
    NoSecondNode(t, Spend(w, q.rows, remaining), Take(q.rows, remaining), q.origins, q.rule, n);
  }

  lemma {:induction false} SameNode(t: Task, w: Walk, keys: seq<RuleKey>, frontier: seq<Node>, n: Node)
    requires forall k :: k in keys ==> HasKey(t.policy.edges, k)
    requires n in WalkKeys(t, w, keys, frontier).nodes && n.id in Ids(w.nodes)
    ensures n in w.nodes
    decreases |keys|
  {
    if keys != [] && t.edgeBudget - w.edgesWalked > 0 {
      var q := QueryFor(t, keys[0], frontier);
      var w1 := WalkQuery(t, w, q);
      WalkQueryGrows(t, w, q);
      GrowIds(w.nodes, w1.nodes);
      SameNode(t, w1, keys[1..], frontier, n);
      QueryAddsNoSecond(t, w, q, n);
    }
  }

  // ---- The whole walk

  /** No edge into `n` out of a recorded node at the depth of its origin is prior to the one it was recorded across. */
  ghost predicate LeastOf(t: Task, nodes: seq<Node>, n: Node, m: Node, f: Fact, r: Rule) {
    && m in nodes && Follows(t, m, n, f, r)
    && forall m', f', r' :: m' in nodes && m'.depth == m.depth && EdgeTo(t, m', f', r', n.id)
                            ==> !Prior(t, m', f', r', m, f, r)
  }

  ghost predicate ChosenOf(t: Task, nodes: seq<Node>, n: Node) {
    exists m, f, r :: LeastOf(t, nodes, n, m, f, r)
  }

  lemma EdgeKeyIsTaken(t: Task, frontier: seq<Node>, m: Node, f: Fact, r: Rule)
    requires m in frontier && EdgeFrom(t, m, f, r)
    ensures KeyOf(r) in LevelKeys(t.policy, frontier)
  {
    EdgeHasKey(t, frontier, m, f, r);
  }

  lemma LevelChooses(t: Task, w: Walk, frontier: seq<Node>, depth: nat, n: Node)
    requires AtLevel(t, w, frontier, depth) && !WalkLevel(t, w, frontier).truncated
    requires DeepensTo(w, WalkLevel(t, w, frontier), depth + 1)
    requires n in WalkLevel(t, w, frontier).nodes && n.id !in Ids(w.nodes)
    ensures ChosenOf(t, WalkLevel(t, w, frontier).nodes, n)
  {
    var keys, nodes := LevelKeys(t.policy, frontier), WalkLevel(t, w, frontier).nodes;
    LevelKeysKnown(t.policy, frontier);
    SortSorts(KeysAmong(t.policy, t.policy.edges, frontier), RuleOrder);
    KeysChoose(t, w, keys, frontier, n);
    var m, f, r :| Least(t, frontier, keys, n, m, f, r);
    forall m', f', r' | m' in nodes && m'.depth == m.depth && EdgeTo(t, m', f', r', n.id)
      ensures !Prior(t, m', f', r', m, f, r)
    {
      OldOrDeeper(w, WalkLevel(t, w, frontier), depth, m');
      EdgeKeyIsTaken(t, frontier, m', f', r');
    }
    assert m in nodes by { GrowIds(w.nodes, nodes); }
    assert LeastOf(t, nodes, n, m, f, r);
  }

  lemma OldOrDeeper(w: Walk, w': Walk, depth: nat, n: Node)
    requires DeepensTo(w, w', depth + 1) && n in w'.nodes
    ensures n in w.nodes || n.depth == depth + 1
  {
    var i :| 0 <= i < |w'.nodes| && w'.nodes[i] == n;
    if i < |w.nodes| { assert w.nodes[i] == n; } else { assert n in w'.nodes[|w.nodes|..]; }
  }

  lemma ChosenStays(t: Task, w: Walk, w': Walk, depth: nat, n: Node)
    requires DeepensTo(w, w', depth + 1) && ChosenOf(t, w.nodes, n) && n.depth <= depth + 1
    ensures ChosenOf(t, w'.nodes, n)
  {
    var m, f, r :| LeastOf(t, w.nodes, n, m, f, r);
    forall m', f', r' | m' in w'.nodes && m'.depth == m.depth && EdgeTo(t, m', f', r', n.id)
      ensures !Prior(t, m', f', r', m, f, r)
    {
      OldOrDeeper(w, w', depth, m');
    }
    GrowIds(w.nodes, w'.nodes);
    assert LeastOf(t, w'.nodes, n, m, f, r);
  }

  ghost predicate AllChosen(t: Task, roots: seq<Node>, nodes: seq<Node>) {
    forall n :: n in nodes && n.id !in Ids(roots) ==> ChosenOf(t, nodes, n)
  }

  lemma LevelKeepsChosen(t: Task, roots: seq<Node>, w: Walk, frontier: seq<Node>, depth: nat)
    requires Sound(t, roots, w.nodes) && AtLevel(t, w, frontier, depth) && !WalkLevel(t, w, frontier).truncated
    requires AllChosen(t, roots, w.nodes)
    ensures AllChosen(t, roots, WalkLevel(t, w, frontier).nodes)
  {
    var w' := WalkLevel(t, w, frontier);
    LevelKeysKnown(t.policy, frontier);
    WalkKeysDepth(t, w, LevelKeys(t.policy, frontier), frontier, depth);
    forall n | n in w'.nodes && n.id !in Ids(roots) ensures ChosenOf(t, w'.nodes, n) {
      if n.id in Ids(w.nodes) {
        SameNode(t, w, LevelKeys(t.policy, frontier), frontier, n);
        ChosenStays(t, w, w', depth, n);
      } else {
        LevelChooses(t, w, frontier, depth, n);
      }
    }
  }

  lemma {:induction false} LevelsChoose(t: Task, roots: seq<Node>, w: Walk, frontier: seq<Node>, depth: nat)
    requires Sound(t, roots, w.nodes) && AtLevel(t, w, frontier, depth) && AllChosen(t, roots, w.nodes)
    requires !WalkLevels(t, w, frontier, depth).truncated
    ensures AllChosen(t, roots, WalkLevels(t, w, frontier, depth).nodes)
    decreases t.policy.maxDepth - depth
  {
    if !Ends(t, frontier, depth) {
      var w1 := WalkLevel(t, w, frontier);
      LevelIsSound(t, roots, w, frontier);
      WalkLevelsSound(t, roots, w1, NextFrontier(w, w1), depth + 1);
      LevelKeepsChosen(t, roots, w, frontier, depth);
      LevelAdvances(t, roots, w, frontier, depth);
      LevelsChoose(t, roots, w1, NextFrontier(w, w1), depth + 1);
    }
  }

  lemma WalkChooses(t: Task, seeds: seq<Node>, d0: nat)
    requires (forall s :: s in seeds ==> s.depth == d0) && !Expanded(t, seeds).truncated
    ensures AllChosen(t, Roots(seeds), Expanded(t, seeds).nodes)
  {
    RootsAreSeeds(seeds);
    var w := Start(seeds);
    forall n | n in w.nodes ensures n.id in Ids(w.nodes) { IdsMember(w.nodes, n); }
    DeepestOfUniform(w.nodes, d0);
    if w.nodes != [] {
      LevelsChoose(t, w.nodes, w, w.nodes, d0);
    }
  }

  lemma PriorReads(t: Task, m: Node, f: Fact, r: Rule, m': Node, f': Fact, r': Rule)
    requires EdgeFrom(t, m, f, r) && EdgeFrom(t, m', f', r')
    requires EdgeRow(t, m, f, r).id == EdgeRow(t, m', f', r').id
    ensures Prior(t, m, f, r, m', f', r') <==> EdgeBefore(t.graph, m, r, f, m', r', f')
  {
    RuleOrderReads(r, r');
    RowOrderReads(EdgeRow(t, m, f, r), EdgeRow(t, m', f', r'));
  }

  /**
   * In an untruncated walk a node past the seeds is recorded across the first edge that leads to it from the level
   * above: first by relation, direction and classification, then by where it comes from, then by fact.
   */
  lemma FirstEdgeIsTaken(t: Task, seeds: seq<Node>, d0: nat, n: Node)
    requires (forall s :: s in seeds ==> s.depth == d0) && !Expanded(t, seeds).truncated
    requires n in Expanded(t, seeds).nodes && n.id !in Ids(seeds)
    ensures exists m, r, q, f ::
              && m in Expanded(t, seeds).nodes && Across(t.graph, t.policy, m, r, q, f, n)
              && forall m', r', q', f' ::
                   m' in Expanded(t, seeds).nodes && m'.depth == m.depth
                   && Crosses(t.graph, t.policy, m', r', q', f', n.id)
                   && f'.evidenced && f'.confidence >= t.policy.minimumConfidence
                   ==> !EdgeBefore(t.graph, m', r', f', m, r, f)
  {
    var nodes := Expanded(t, seeds).nodes;
    WalkChooses(t, seeds, d0);
    RootsAreSeeds(seeds);
    var m, f, r :| LeastOf(t, nodes, n, m, f, r);
    var q := FirstRule(t.policy.edges, KeyOf(r));
    EdgeIsCrossing(t, m, f, r);
    assert Across(t.graph, t.policy, m, r, q, f, n);
    forall m', r', q', f' |
      m' in nodes && m'.depth == m.depth && Crosses(t.graph, t.policy, m', r', q', f', n.id)
      && f'.evidenced && f'.confidence >= t.policy.minimumConfidence
      ensures !EdgeBefore(t.graph, m', r', f', m, r, f)
    {
      CrossingIsEdge(t, m', r', q', f', n.id);
      PriorReads(t, m', f', r', m, f, r);
      assert EdgeTo(t, m', f', r', n.id);
    }
  }
}
