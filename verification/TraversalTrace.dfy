// The rows a walk went over, in order: every one is stopped, leads somewhere new or somewhere known, and none comes
// twice.

module TraversalTrace {
  import opened Ordering
  import opened Estate
  import opened Traversal
  import opened TraversalSound
  import opened TraversalReach

  /** One row of the edge query of one rule key. */
  datatype Visit = Visit(key: RuleKey, row: Row)

  function Visits(k: RuleKey, rows: seq<Row>): (vs: seq<Visit>)
    ensures |vs| == |rows| && forall i :: 0 <= i < |rows| ==> vs[i] == Visit(k, rows[i])
  {
    seq(|rows|, i requires 0 <= i < |rows| => Visit(k, rows[i]))
  }

  function KeyTrace(t: Task, w: Walk, k: RuleKey, frontier: seq<Node>): seq<Visit>
    requires HasKey(t.policy.edges, k)
  {
    Visits(k, Take(QueryFor(t, k, frontier).rows, t.edgeBudget - w.edgesWalked))
  }

  function KeysTrace(t: Task, w: Walk, keys: seq<RuleKey>, frontier: seq<Node>): seq<Visit>
    requires forall k :: k in keys ==> HasKey(t.policy.edges, k)
    decreases |keys|
  {
    if keys == [] || t.edgeBudget - w.edgesWalked <= 0 then []
    else
      KeyTrace(t, w, keys[0], frontier)
      + KeysTrace(t, WalkQuery(t, w, QueryFor(t, keys[0], frontier)), keys[1..], frontier)
  }

  function LevelTrace(t: Task, w: Walk, frontier: seq<Node>): seq<Visit> {
    LevelKeysKnown(t.policy, frontier);
    KeysTrace(t, w, LevelKeys(t.policy, frontier), frontier)
  }

  function LevelsTrace(t: Task, w: Walk, frontier: seq<Node>, depth: nat): seq<Visit>
    decreases t.policy.maxDepth - depth
  {
    if Ends(t, frontier, depth) then []
    else
      var w' := WalkLevel(t, w, frontier);
      LevelTrace(t, w, frontier) + LevelsTrace(t, w', NextFrontier(w, w'), depth + 1)
  }

  /** Every row the walk from these seeds fetched within its edge budget. */
  function Trace(t: Task, seeds: seq<Node>): seq<Visit> {
    var w := Start(seeds);
    LevelsTrace(t, w, w.nodes, DeepestOf(w.nodes))
  }

  // ---- The edges walked are the rows fetched

  lemma {:induction false} KeysAreTraced(t: Task, w: Walk, keys: seq<RuleKey>, frontier: seq<Node>)
    requires forall k :: k in keys ==> HasKey(t.policy.edges, k)
    ensures WalkKeys(t, w, keys, frontier).edgesWalked == w.edgesWalked + |KeysTrace(t, w, keys, frontier)|
    decreases |keys|
  {
    if keys != [] && t.edgeBudget - w.edgesWalked > 0 {
      var q := QueryFor(t, keys[0], frontier);
      WalkQueryGrows(t, w, q);
      KeysAreTraced(t, WalkQuery(t, w, q), keys[1..], frontier);
    }
  }

  lemma {:induction false} LevelsAreTraced(t: Task, w: Walk, frontier: seq<Node>, depth: nat)
    ensures WalkLevels(t, w, frontier, depth).edgesWalked == w.edgesWalked + |LevelsTrace(t, w, frontier, depth)|
    decreases t.policy.maxDepth - depth
  {
    if !Ends(t, frontier, depth) {
      LevelKeysKnown(t.policy, frontier);
      KeysAreTraced(t, w, LevelKeys(t.policy, frontier), frontier);
      var w1 := WalkLevel(t, w, frontier);
      LevelsAreTraced(t, w1, NextFrontier(w, w1), depth + 1);
    }
  }

  lemma EdgesAreTraced(t: Task, seeds: seq<Node>)
    ensures Expanded(t, seeds).edgesWalked == |Trace(t, seeds)|
  {
    var w := Start(seeds);
    LevelsAreTraced(t, w, w.nodes, DeepestOf(w.nodes));
  }

  // ---- What became of them

  predicate Walkable(p: Policy, row: Row) {
    Eligibility(row.evidenced, row.confidence, p.minimumConfidence).None?
  }

  function Refused(p: Policy, vs: seq<Visit>): (refused: seq<Visit>)
    ensures forall v :: v in refused <==> v in vs && !Walkable(p, v.row)
  {
    if vs == [] then []
    else
      assert vs == [vs[0]] + vs[1..];
      if Walkable(p, vs[0].row) then Refused(p, vs[1..]) else [vs[0]] + Refused(p, vs[1..])
  }

  function Led(p: Policy, vs: seq<Visit>): set<EntityId> {
    set v | v in vs && Walkable(p, v.row) :: v.row.id
  }

  /** How many rows led to an entity already known, by `known` or by a row before it. */
  function Repeated(p: Policy, known: set<EntityId>, vs: seq<Visit>): nat
    decreases |vs|
  {
    if vs == [] then 0
    else if !Walkable(p, vs[0].row) then Repeated(p, known, vs[1..])
    else (if vs[0].row.id in known then 1 else 0) + Repeated(p, known + {vs[0].row.id}, vs[1..])
  }

  /** What the finding of a stopped branch is keyed by. */
  datatype StopLabel = StopLabel(relation: string, fact: Option<FactId>, id: EntityId)

  function LabelOf(v: Visit): StopLabel {
    StopLabel(v.key.relation, if v.row.evidenced then Some(v.row.fact) else None, v.row.id)
  }

  function LabelsOf(vs: seq<Visit>): seq<StopLabel> {
    seq(|vs|, i requires 0 <= i < |vs| => LabelOf(vs[i]))
  }

  function StopLabels(stopped: seq<StoppedBranch>): seq<StopLabel> {
    seq(|stopped|, i requires 0 <= i < |stopped| => StopLabel(stopped[i].relation, stopped[i].fact, stopped[i].id))
  }

  /**
   * What a walk has so far: the labels of its stopped branches, the entities recorded, and how many nodes that took.
   */
  datatype Books = Books(stopped: seq<StopLabel>, ids: set<EntityId>, size: nat)

  function BooksOf(w: Walk): Books {
    Books(StopLabels(w.stopped), Ids(w.nodes), |w.nodes|)
  }

  predicate Accounted(p: Policy, a: Books, b: Books, vs: seq<Visit>) {
    && b.stopped == a.stopped + LabelsOf(Refused(p, vs))
    && b.ids == a.ids + Led(p, vs)
    && |vs| + a.size == |Refused(p, vs)| + b.size + Repeated(p, a.ids, vs)
  }

  lemma {:induction false} RefusedJoined(p: Policy, us: seq<Visit>, vs: seq<Visit>)
    ensures Refused(p, us + vs) == Refused(p, us) + Refused(p, vs)
    decreases |us|
  {
    if us == [] {
      assert us + vs == vs;
    } else {
      assert (us + vs)[1..] == us[1..] + vs;
      RefusedJoined(p, us[1..], vs);
    }
  }

  lemma LedJoined(p: Policy, us: seq<Visit>, vs: seq<Visit>)
    ensures Led(p, us + vs) == Led(p, us) + Led(p, vs)
  {
    assert forall v :: v in us + vs <==> v in us || v in vs;
  }

  lemma LedFirst(p: Policy, vs: seq<Visit>)
    requires vs != []
    ensures Led(p, vs) == (if Walkable(p, vs[0].row) then {vs[0].row.id} else {}) + Led(p, vs[1..])
  {
    assert vs == [vs[0]] + vs[1..];
  }

  lemma {:induction false} RepeatedJoined(p: Policy, known: set<EntityId>, us: seq<Visit>, vs: seq<Visit>)
    ensures Repeated(p, known, us + vs) == Repeated(p, known, us) + Repeated(p, known + Led(p, us), vs)
    decreases |us|
  {
    if us == [] {
      assert us + vs == vs && known + Led(p, us) == known;
    } else {
      assert (us + vs)[1..] == us[1..] + vs;
      LedFirst(p, us);
      if Walkable(p, us[0].row) {
        RepeatedJoined(p, known + {us[0].row.id}, us[1..], vs);
        assert known + {us[0].row.id} + Led(p, us[1..]) == known + Led(p, us);
      } else {
        RepeatedJoined(p, known, us[1..], vs);
        assert Led(p, us[1..]) == Led(p, us);
      }
    }
  }

  lemma LabelsJoined(us: seq<Visit>, vs: seq<Visit>)
    ensures LabelsOf(us + vs) == LabelsOf(us) + LabelsOf(vs)
  {}

  lemma StoppedJoined(p: Policy, a: Books, b: Books, c: Books, us: seq<Visit>, vs: seq<Visit>)
    requires b.stopped == a.stopped + LabelsOf(Refused(p, us)) && c.stopped == b.stopped + LabelsOf(Refused(p, vs))
    ensures c.stopped == a.stopped + LabelsOf(Refused(p, us + vs))
  {
    var x, y := LabelsOf(Refused(p, us)), LabelsOf(Refused(p, vs));
    RefusedJoined(p, us, vs);
    LabelsJoined(Refused(p, us), Refused(p, vs));
    assert (a.stopped + x) + y == a.stopped + (x + y);
  }

  lemma AccountedJoined(p: Policy, a: Books, b: Books, c: Books, us: seq<Visit>, vs: seq<Visit>)
    requires Accounted(p, a, b, us) && Accounted(p, b, c, vs)
    ensures Accounted(p, a, c, us + vs)
  {
    StoppedJoined(p, a, b, c, us, vs);
    RefusedJoined(p, us, vs);
    RepeatedJoined(p, a.ids, us, vs);
    LedJoined(p, us, vs);
  }

  /** What the first row does to the walk, when it does not end the query. */
  function FirstRow(t: Task, w: Walk, rows: seq<Row>, origins: map<EntityId, Node>, r: Rule): Walk
    requires rows != [] && Anchored(rows, origins)
  {
    var row, origin := rows[0], origins[rows[0].origin];
    match Eligibility(row.evidenced, row.confidence, t.policy.minimumConfidence)
    case Some(reason) => w.(stopped := w.stopped + [StoppedAt(row, origin, r, reason)])
    case None => if row.id in Ids(w.nodes) then w else w.(nodes := w.nodes + [NodeAt(row, origin, r)])
  }

  lemma IdsOneMore(nodes: seq<Node>, n: Node)
    ensures Ids(nodes + [n]) == Ids(nodes) + {n.id}
  {
    assert forall m :: m in nodes + [n] <==> m in nodes || m == n;
  }

  lemma OneAccounted(p: Policy, a: Books, b: Books, v: Visit)
    requires if !Walkable(p, v.row) then b == a.(stopped := a.stopped + [LabelOf(v)])
             else if v.row.id in a.ids then b == a
             else b == Books(a.stopped, a.ids + {v.row.id}, a.size + 1)
    ensures Accounted(p, a, b, [v])
  {
    LedFirst(p, [v]);
    assert Led(p, []) == {} && [v][1..] == [];
    if !Walkable(p, v.row) {
      assert LabelsOf([v]) == [LabelOf(v)];
    }
  }

  lemma FirstRowAccounted(t: Task, w: Walk, rows: seq<Row>, origins: map<EntityId, Node>, r: Rule)
    requires rows != [] && Anchored(rows, origins)
    ensures Accounted(t.policy, BooksOf(w), BooksOf(FirstRow(t, w, rows, origins, r)), [Visit(KeyOf(r), rows[0])])
  {
    IdsOneMore(w.nodes, NodeAt(rows[0], origins[rows[0].origin], r));
    OneAccounted(t.policy, BooksOf(w), BooksOf(FirstRow(t, w, rows, origins, r)), Visit(KeyOf(r), rows[0]));
  }

  /** A row that would record an entity the node budget has no room for. */
  predicate Overflows(t: Task, w: Walk, row: Row) {
    Walkable(t.policy, row) && row.id !in Ids(w.nodes) && |w.nodes| >= t.nodeBudget
  }

  /** The node budget refuses no row of the query. */
  predicate RowsFit(t: Task, w: Walk, rows: seq<Row>, origins: map<EntityId, Node>, r: Rule)
    requires Anchored(rows, origins)
    decreases |rows|
  {
    rows == [] || (!Overflows(t, w, rows[0]) && RowsFit(t, FirstRow(t, w, rows, origins, r), rows[1..], origins, r))
  }

  predicate QueryFits(t: Task, w: Walk, q: Query)
    requires Anchored(q.rows, q.origins) && t.edgeBudget > w.edgesWalked
  {
    var remaining := t.edgeBudget - w.edgesWalked;
    RowsFit(t, Spend(w, q.rows, remaining), Take(q.rows, remaining), q.origins, q.rule)
  }

  predicate KeysFit(t: Task, w: Walk, keys: seq<RuleKey>, frontier: seq<Node>)
    requires forall k :: k in keys ==> HasKey(t.policy.edges, k)
    decreases |keys|
  {
    keys == [] || t.edgeBudget - w.edgesWalked <= 0
    || (QueryFits(t, w, QueryFor(t, keys[0], frontier))
        && KeysFit(t, WalkQuery(t, w, QueryFor(t, keys[0], frontier)), keys[1..], frontier))
  }

  predicate LevelFits(t: Task, w: Walk, frontier: seq<Node>) {
    LevelKeysKnown(t.policy, frontier);
    KeysFit(t, w, LevelKeys(t.policy, frontier), frontier)
  }

  predicate LevelsFit(t: Task, w: Walk, frontier: seq<Node>, depth: nat)
    decreases t.policy.maxDepth - depth
  {
    Ends(t, frontier, depth)
    || (LevelFits(t, w, frontier)
        && LevelsFit(t, WalkLevel(t, w, frontier), NextFrontier(w, WalkLevel(t, w, frontier)), depth + 1))
  }

  /** The node budget refuses nothing in the whole walk. */
  predicate Fits(t: Task, seeds: seq<Node>) {
    var w := Start(seeds);
    LevelsFit(t, w, w.nodes, DeepestOf(w.nodes))
  }

  lemma FirstThenRest(t: Task, w: Walk, rows: seq<Row>, origins: map<EntityId, Node>, r: Rule)
    requires rows != [] && Anchored(rows, origins) && !Overflows(t, w, rows[0])
    ensures Anchored(rows[1..], origins)
    ensures WalkRows(t, w, rows, origins, r) == WalkRows(t, FirstRow(t, w, rows, origins, r), rows[1..], origins, r)
  {
    forall q | q in rows[1..] ensures q in rows {}
  }

  lemma VisitsFirst(k: RuleKey, rows: seq<Row>)
    requires rows != []
    ensures Visits(k, rows) == [Visit(k, rows[0])] + Visits(k, rows[1..])
  {}

  lemma {:induction false} RowsAccounted(t: Task, w: Walk, rows: seq<Row>, origins: map<EntityId, Node>, r: Rule,
                                         w': Walk)
    requires Anchored(rows, origins) && w' == WalkRows(t, w, rows, origins, r) && RowsFit(t, w, rows, origins, r)
    ensures Accounted(t.policy, BooksOf(w), BooksOf(w'), Visits(KeyOf(r), rows))
    decreases |rows|
  {
    if rows == [] {
      NothingAccounted(t.policy, BooksOf(w));
      assert Visits(KeyOf(r), rows) == [];
    } else {
      var w1 := FirstRow(t, w, rows, origins, r);
      FirstThenRest(t, w, rows, origins, r);
      RowsAccounted(t, w1, rows[1..], origins, r, w');
      FirstRowAccounted(t, w, rows, origins, r);
      VisitsFirst(KeyOf(r), rows);
      AccountedJoined(t.policy, BooksOf(w), BooksOf(w1), BooksOf(w'), [Visit(KeyOf(r), rows[0])],
                      Visits(KeyOf(r), rows[1..]));
    }
  }

  lemma NothingAccounted(p: Policy, a: Books)
    ensures Accounted(p, a, a, [])
  {
    assert Led(p, []) == {} && LabelsOf([]) == [];
  }

  lemma QueryAccounted(t: Task, w: Walk, q: Query, w': Walk)
    requires Anchored(q.rows, q.origins) && t.edgeBudget > w.edgesWalked && w' == WalkQuery(t, w, q)
    requires QueryFits(t, w, q)
    ensures Accounted(t.policy, BooksOf(w), BooksOf(w'),
                      Visits(KeyOf(q.rule), Take(q.rows, t.edgeBudget - w.edgesWalked)))
  {
    var remaining := t.edgeBudget - w.edgesWalked;
    var s := Spend(w, q.rows, remaining);
    assert BooksOf(s) == BooksOf(w);
    RowsAccounted(t, s, Take(q.rows, remaining), q.origins, q.rule, w');
  }

  lemma KeyAccounted(t: Task, w: Walk, k: RuleKey, frontier: seq<Node>, w': Walk)
    requires HasKey(t.policy.edges, k) && t.edgeBudget > w.edgesWalked
    requires w' == WalkQuery(t, w, QueryFor(t, k, frontier)) && QueryFits(t, w, QueryFor(t, k, frontier))
    ensures Accounted(t.policy, BooksOf(w), BooksOf(w'), KeyTrace(t, w, k, frontier))
  {
    var q := QueryFor(t, k, frontier);
    assert KeyTrace(t, w, k, frontier) == Visits(KeyOf(q.rule), Take(q.rows, t.edgeBudget - w.edgesWalked));
    QueryAccounted(t, w, q, w');
  }

  lemma {:induction false} KeysAccounted(t: Task, w: Walk, keys: seq<RuleKey>, frontier: seq<Node>, w': Walk)
    requires forall k :: k in keys ==> HasKey(t.policy.edges, k)
    requires w' == WalkKeys(t, w, keys, frontier) && KeysFit(t, w, keys, frontier)
    ensures Accounted(t.policy, BooksOf(w), BooksOf(w'), KeysTrace(t, w, keys, frontier))
    decreases |keys|
  {
    if keys == [] || t.edgeBudget - w.edgesWalked <= 0 {
      NothingAccounted(t.policy, BooksOf(w));
    } else {
      var q := QueryFor(t, keys[0], frontier);
      var w1, us := WalkQuery(t, w, q), KeyTrace(t, w, keys[0], frontier);
      KeyAccounted(t, w, keys[0], frontier, w1);
      KeysAccounted(t, w1, keys[1..], frontier, w');
      AccountedJoined(t.policy, BooksOf(w), BooksOf(w1), BooksOf(w'), us, KeysTrace(t, w1, keys[1..], frontier));
    }
  }

  lemma {:induction false} LevelsAccounted(t: Task, w: Walk, frontier: seq<Node>, depth: nat, w': Walk)
    requires w' == WalkLevels(t, w, frontier, depth) && LevelsFit(t, w, frontier, depth)
    ensures Accounted(t.policy, BooksOf(w), BooksOf(w'), LevelsTrace(t, w, frontier, depth))
    decreases t.policy.maxDepth - depth
  {
    if Ends(t, frontier, depth) {
      NothingAccounted(t.policy, BooksOf(w));
    } else {
      var w1 := WalkLevel(t, w, frontier);
      var rest := LevelsTrace(t, w1, NextFrontier(w, w1), depth + 1);
      LevelKeysKnown(t.policy, frontier);
      KeysAccounted(t, w, LevelKeys(t.policy, frontier), frontier, w1);
      LevelsAccounted(t, w1, NextFrontier(w, w1), depth + 1, w');
      AccountedJoined(t.policy, BooksOf(w), BooksOf(w1), BooksOf(w'), LevelTrace(t, w, frontier), rest);
    }
  }

  lemma BooksAtStart(seeds: seq<Node>)
    ensures BooksOf(Start(seeds)) == Books([], Ids(seeds), |Ids(seeds)|)
  {
    RootsAreSeeds(seeds);
    IdsCount(Start(seeds).nodes);
  }

  lemma FittingIsAccounted(t: Task, seeds: seq<Node>)
    requires Fits(t, seeds)
    ensures var w, vs := Expanded(t, seeds), Trace(t, seeds);
            && StopLabels(w.stopped) == LabelsOf(Refused(t.policy, vs))
            && Ids(w.nodes) == Ids(seeds) + Led(t.policy, vs)
            && w.edgesWalked == |w.stopped| + (|w.nodes| - |Ids(seeds)|) + Repeated(t.policy, Ids(seeds), vs)
  {
    var w := Start(seeds);
    BooksAtStart(seeds);
    EdgesAreTraced(t, seeds);
    LevelsAccounted(t, w, w.nodes, DeepestOf(w.nodes), Expanded(t, seeds));
    StoppedFromNothing(BooksOf(Expanded(t, seeds)).stopped, LabelsOf(Refused(t.policy, Trace(t, seeds))));
  }

  lemma StoppedFromNothing(a: seq<StopLabel>, b: seq<StopLabel>)
    requires a == [] + b
    ensures a == b
  {}

  // ---- What the node budget refuses is missing

  /** A walk whose node budget is used up records nothing more. */
  predicate FullIn(t: Task, w: Walk) {
    |w.nodes| >= t.nodeBudget
  }

  lemma {:induction false} FullRows(t: Task, w: Walk, rows: seq<Row>, origins: map<EntityId, Node>, r: Rule)
    requires Anchored(rows, origins) && FullIn(t, w)
    ensures WalkRows(t, w, rows, origins, r).nodes == w.nodes
    decreases |rows|
  {
    if rows != [] && !Overflows(t, w, rows[0]) {
      FirstThenRest(t, w, rows, origins, r);
      FullRows(t, FirstRow(t, w, rows, origins, r), rows[1..], origins, r);
    }
  }

  lemma FullQuery(t: Task, w: Walk, q: Query)
    requires Anchored(q.rows, q.origins) && t.edgeBudget > w.edgesWalked && FullIn(t, w)
    ensures WalkQuery(t, w, q).nodes == w.nodes
  {
    var remaining := t.edgeBudget - w.edgesWalked;
    FullRows(t, Spend(w, q.rows, remaining), Take(q.rows, remaining), q.origins, q.rule);
  }

  lemma {:induction false} FullKeys(t: Task, w: Walk, keys: seq<RuleKey>, frontier: seq<Node>)
    requires (forall k :: k in keys ==> HasKey(t.policy.edges, k)) && FullIn(t, w)
    ensures WalkKeys(t, w, keys, frontier).nodes == w.nodes
    decreases |keys|
  {
    if keys != [] && t.edgeBudget - w.edgesWalked > 0 {
      var q := QueryFor(t, keys[0], frontier);
      FullQuery(t, w, q);
      FullKeys(t, WalkQuery(t, w, q), keys[1..], frontier);
    }
  }

  lemma {:induction false} FullLevels(t: Task, w: Walk, frontier: seq<Node>, depth: nat)
    requires FullIn(t, w)
    ensures WalkLevels(t, w, frontier, depth).nodes == w.nodes
    decreases t.policy.maxDepth - depth
  {
    if !Ends(t, frontier, depth) {
      LevelKeysKnown(t.policy, frontier);
      FullKeys(t, w, LevelKeys(t.policy, frontier), frontier);
      var w1 := WalkLevel(t, w, frontier);
      FullLevels(t, w1, NextFrontier(w, w1), depth + 1);
    }
  }

  /** A walk that is full and cut, and an eligible row leads to an entity it has not recorded. */
  predicate Missing(t: Task, w: Walk, v: Visit) {
    FullIn(t, w) && w.truncated && Walkable(t.policy, v.row) && v.row.id !in Ids(w.nodes)
  }

  lemma {:induction false} UnfitRows(t: Task, w: Walk, rows: seq<Row>, origins: map<EntityId, Node>, r: Rule)
      returns (v: Visit)
    requires Anchored(rows, origins) && !RowsFit(t, w, rows, origins, r)
    ensures v in Visits(KeyOf(r), rows) && Missing(t, WalkRows(t, w, rows, origins, r), v)
    decreases |rows|
  {
    VisitsFirst(KeyOf(r), rows);
    if Overflows(t, w, rows[0]) {
      v := Visit(KeyOf(r), rows[0]);
    } else {
      FirstThenRest(t, w, rows, origins, r);
      v := UnfitRows(t, FirstRow(t, w, rows, origins, r), rows[1..], origins, r);
    }
  }

  lemma UnfitQuery(t: Task, w: Walk, q: Query) returns (v: Visit)
    requires Anchored(q.rows, q.origins) && t.edgeBudget > w.edgesWalked && !QueryFits(t, w, q)
    ensures v in Visits(KeyOf(q.rule), Take(q.rows, t.edgeBudget - w.edgesWalked)) && Missing(t, WalkQuery(t, w, q), v)
  {
    var remaining := t.edgeBudget - w.edgesWalked;
    v := UnfitRows(t, Spend(w, q.rows, remaining), Take(q.rows, remaining), q.origins, q.rule);
  }

  lemma UnfitKey(t: Task, w: Walk, k: RuleKey, frontier: seq<Node>) returns (v: Visit)
    requires HasKey(t.policy.edges, k) && t.edgeBudget > w.edgesWalked && !QueryFits(t, w, QueryFor(t, k, frontier))
    ensures v in KeyTrace(t, w, k, frontier) && Missing(t, WalkQuery(t, w, QueryFor(t, k, frontier)), v)
  {
    assert KeyOf(QueryFor(t, k, frontier).rule) == k;
    v := UnfitQuery(t, w, QueryFor(t, k, frontier));
  }

  lemma {:induction false} UnfitKeys(t: Task, w: Walk, keys: seq<RuleKey>, frontier: seq<Node>) returns (v: Visit)
    requires (forall k :: k in keys ==> HasKey(t.policy.edges, k)) && !KeysFit(t, w, keys, frontier)
    ensures v in KeysTrace(t, w, keys, frontier) && Missing(t, WalkKeys(t, w, keys, frontier), v)
    decreases |keys|
  {
    var w1 := WalkQuery(t, w, QueryFor(t, keys[0], frontier));
    if !QueryFits(t, w, QueryFor(t, keys[0], frontier)) {
      v := UnfitKey(t, w, keys[0], frontier);
      FullKeys(t, w1, keys[1..], frontier);
      WalkKeysGrows(t, w1, keys[1..], frontier);
    } else {
      v := UnfitKeys(t, w1, keys[1..], frontier);
    }
  }

  lemma {:induction false} UnfitLevels(t: Task, w: Walk, frontier: seq<Node>, depth: nat) returns (v: Visit)
    requires !LevelsFit(t, w, frontier, depth)
    ensures v in LevelsTrace(t, w, frontier, depth) && Missing(t, WalkLevels(t, w, frontier, depth), v)
    decreases t.policy.maxDepth - depth
  {
    var w1 := WalkLevel(t, w, frontier);
    var next := NextFrontier(w, w1);
    if !LevelFits(t, w, frontier) {
      LevelKeysKnown(t.policy, frontier);
      v := UnfitKeys(t, w, LevelKeys(t.policy, frontier), frontier);
      FullLevels(t, w1, next, depth + 1);
      WalkLevelsGrows(t, w1, next, depth + 1);
    } else {
      v := UnfitLevels(t, w1, next, depth + 1);
    }
  }

  /**
   * Every fetched row is accounted for, in order, exactly when the node budget refused none of them: the ineligible
   * ones are the stopped branches, the entities of the rest are, with the seeds, the recorded ones, and the edges
   * walked are the branches stopped, the nodes added and the rows that led to an entity already recorded.
   */
  lemma RowsAreAccountedFor(t: Task, seeds: seq<Node>)
    ensures var w, vs := Expanded(t, seeds), Trace(t, seeds);
            Fits(t, seeds) <==>
              && StopLabels(w.stopped) == LabelsOf(Refused(t.policy, vs))
              && Ids(w.nodes) == Ids(seeds) + Led(t.policy, vs)
              && w.edgesWalked == |w.stopped| + (|w.nodes| - |Ids(seeds)|) + Repeated(t.policy, Ids(seeds), vs)
  {
    if Fits(t, seeds) {
      FittingIsAccounted(t, seeds);
    } else {
      var w := Start(seeds);
      var v := UnfitLevels(t, w, w.nodes, DeepestOf(w.nodes));
      assert v.row.id in Led(t.policy, Trace(t, seeds));
    }
  }

  /** A walk that has room left, or that nothing cut, refused nothing. */
  lemma CutIsFull(t: Task, seeds: seq<Node>)
    requires !Fits(t, seeds)
    ensures |Expanded(t, seeds).nodes| >= t.nodeBudget && Expanded(t, seeds).truncated
  {
    var w := Start(seeds);
    var v := UnfitLevels(t, w, w.nodes, DeepestOf(w.nodes));
  }
}
