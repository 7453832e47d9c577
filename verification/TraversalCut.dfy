// Exactly which edge budgets cut a walk: the ones that one of its queries finds used up, or too small for its rows.

module TraversalCut {
  import opened Ordering
  import opened Estate
  import opened Traversal
  import opened TraversalSound
  import opened TraversalBudget

  /** The edges walked when the last of these queries is run, `had` if there is none. */
  function KeysLast(t: Task, w: Walk, keys: seq<RuleKey>, frontier: seq<Node>, had: Option<nat>): Option<nat>
    requires forall k :: k in keys ==> HasKey(t.policy.edges, k)
    decreases |keys|
  {
    if keys == [] || t.edgeBudget <= w.edgesWalked then had
    else KeysLast(t, WalkQuery(t, w, QueryFor(t, keys[0], frontier)), keys[1..], frontier, Some(w.edgesWalked))
  }

  function LevelLast(t: Task, w: Walk, frontier: seq<Node>, had: Option<nat>): Option<nat> {
    LevelKeysKnown(t.policy, frontier);
    KeysLast(t, w, LevelKeys(t.policy, frontier), frontier, had)
  }

  function LevelsLast(t: Task, w: Walk, frontier: seq<Node>, depth: nat, had: Option<nat>): Option<nat>
    decreases t.policy.maxDepth - depth
  {
    if Ends(t, frontier, depth) then had
    else
      var w1 := WalkLevel(t, w, frontier);
      LevelsLast(t, w1, NextFrontier(w, w1), depth + 1, LevelLast(t, w, frontier, had))
  }

  /** How many edges the walk has walked when it runs its last query, if it runs any. */
  function LastQuery(t: Task, seeds: seq<Node>): Option<nat> {
    var w := Start(seeds);
    LevelsLast(t, w, w.nodes, DeepestOf(w.nodes), None)
  }

  // ---- The walk against another edge budget

  /** Some query of these keys would find the budget used up, or more rows than it has left. */
  predicate KeysStarve(t: Task, w: Walk, keys: seq<RuleKey>, frontier: seq<Node>, budget: int)
    requires forall k :: k in keys ==> HasKey(t.policy.edges, k)
    decreases |keys|
  {
    if keys == [] || t.edgeBudget <= w.edgesWalked then false
    else
      var q := QueryFor(t, keys[0], frontier);
      || budget <= w.edgesWalked || budget < w.edgesWalked + |q.rows|
      || KeysStarve(t, WalkQuery(t, w, q), keys[1..], frontier, budget)
  }

  predicate LevelStarves(t: Task, w: Walk, frontier: seq<Node>, budget: int) {
    LevelKeysKnown(t.policy, frontier);
    KeysStarve(t, w, LevelKeys(t.policy, frontier), frontier, budget)
  }

  predicate LevelsStarve(t: Task, w: Walk, frontier: seq<Node>, depth: nat, budget: int)
    decreases t.policy.maxDepth - depth
  {
    if Ends(t, frontier, depth) then false
    else
      var w1 := WalkLevel(t, w, frontier);
      LevelStarves(t, w, frontier, budget) || LevelsStarve(t, w1, NextFrontier(w, w1), depth + 1, budget)
  }

  /** Nothing was cut, and another node budget has room for it. */
  predicate Uncut(t: Task, w: Walk) {
    !w.truncated && |w.nodes| <= t.nodeBudget
  }

  lemma UncutBefore(t: Task, w: Walk, w': Walk)
    requires Grows(w, w') && Uncut(t, w')
    ensures Uncut(t, w)
  {}

  /** What a walk is under a budget that cuts it, or does not. */
  predicate Meets(cut: bool, w: Walk, whole: Walk) {
    if cut then w.truncated else w == whole
  }

  lemma QueryCut(t1: Task, t2: Task, w: Walk, q: Query)
    requires SameSubject(t1, t2) && Anchored(q.rows, q.origins)
    requires t1.edgeBudget > w.edgesWalked && t2.edgeBudget > w.edgesWalked && Uncut(t1, WalkQuery(t2, w, q))
    ensures Meets(t1.edgeBudget < w.edgesWalked + |q.rows|, WalkQuery(t1, w, q), WalkQuery(t2, w, q))
  {
    var left1, left2 := t1.edgeBudget - w.edgesWalked, t2.edgeBudget - w.edgesWalked;
    WalkRowsGrows(t1, Spend(w, q.rows, left1), Take(q.rows, left1), q.origins, q.rule);
    WalkRowsGrows(t2, Spend(w, q.rows, left2), Take(q.rows, left2), q.origins, q.rule);
    assert |q.rows| <= left2 && Take(q.rows, left2) == q.rows;
    if |q.rows| <= left1 {
      assert Take(q.rows, left1) == q.rows;
      RowsUnspent(t1, t2, Spend(w, q.rows, left2), q.rows, q.origins, q.rule);
    }
  }

  /** An uncut walk of some keys runs the first of them and goes on. */
  lemma FirstIsRun(t1: Task, t2: Task, w: Walk, keys: seq<RuleKey>, frontier: seq<Node>)
    requires keys != [] && (forall k :: k in keys ==> HasKey(t2.policy.edges, k))
    requires Uncut(t1, WalkKeys(t2, w, keys, frontier))
    ensures t2.edgeBudget > w.edgesWalked
    ensures var v := WalkQuery(t2, w, QueryFor(t2, keys[0], frontier));
            Uncut(t1, v) && WalkKeys(t2, w, keys, frontier) == WalkKeys(t2, v, keys[1..], frontier)
  {
    var v := WalkQuery(t2, w, QueryFor(t2, keys[0], frontier));
    WalkKeysGrows(t2, v, keys[1..], frontier);
    UncutBefore(t1, v, WalkKeys(t2, v, keys[1..], frontier));
  }

  /** The first query cuts the walk, or the walk goes on after it as the uncut one does. */
  lemma FirstCuts(t1: Task, t2: Task, w: Walk, keys: seq<RuleKey>, frontier: seq<Node>)
    requires SameSubject(t1, t2) && keys != [] && forall k :: k in keys ==> HasKey(t1.policy.edges, k)
    requires Uncut(t1, WalkKeys(t2, w, keys, frontier))
    ensures t2.edgeBudget > w.edgesWalked
    ensures var q := QueryFor(t2, keys[0], frontier);
            if t1.edgeBudget <= w.edgesWalked || t1.edgeBudget < w.edgesWalked + |q.rows|
            then WalkKeys(t1, w, keys, frontier).truncated
            else WalkKeys(t1, w, keys, frontier) == WalkKeys(t1, WalkQuery(t2, w, q), keys[1..], frontier)
  {
    FirstIsRun(t1, t2, w, keys, frontier);
    var q := QueryFor(t2, keys[0], frontier);
    assert q == QueryFor(t1, keys[0], frontier);
    if t1.edgeBudget > w.edgesWalked {
      QueryCut(t1, t2, w, q);
      WalkKeysGrows(t1, WalkQuery(t1, w, q), keys[1..], frontier);
    }
  }

  lemma {:induction false} KeysCut(t1: Task, t2: Task, w: Walk, keys: seq<RuleKey>, frontier: seq<Node>)
    requires SameSubject(t1, t2) && forall k :: k in keys ==> HasKey(t1.policy.edges, k)
    requires Uncut(t1, WalkKeys(t2, w, keys, frontier))
    ensures Meets(KeysStarve(t2, w, keys, frontier, t1.edgeBudget),
                  WalkKeys(t1, w, keys, frontier), WalkKeys(t2, w, keys, frontier))
    decreases |keys|
  {
    if keys != [] {
      FirstIsRun(t1, t2, w, keys, frontier);
      FirstCuts(t1, t2, w, keys, frontier);
      KeysCut(t1, t2, WalkQuery(t2, w, QueryFor(t2, keys[0], frontier)), keys[1..], frontier);
    }
  }

  lemma LevelCut(t1: Task, t2: Task, w: Walk, frontier: seq<Node>)
    requires SameSubject(t1, t2) && Uncut(t1, WalkLevel(t2, w, frontier))
    ensures Meets(LevelStarves(t2, w, frontier, t1.edgeBudget), WalkLevel(t1, w, frontier), WalkLevel(t2, w, frontier))
  {
    LevelKeysKnown(t2.policy, frontier);
    KeysCut(t1, t2, w, LevelKeys(t2.policy, frontier), frontier);
  }

  lemma NextLevel(t: Task, w: Walk, frontier: seq<Node>, depth: nat)
    requires !Ends(t, frontier, depth)
    ensures depth < t.policy.maxDepth
    ensures var v := WalkLevel(t, w, frontier);
            && WalkLevels(t, w, frontier, depth) == WalkLevels(t, v, NextFrontier(w, v), depth + 1)
            && Grows(v, WalkLevels(t, w, frontier, depth))
  {
    var v := WalkLevel(t, w, frontier);
    WalkLevelsGrows(t, v, NextFrontier(w, v), depth + 1);
  }

  /** The first level cuts the walk, or the walk goes on after it as the uncut one does. */
  lemma FirstLevelCuts(t1: Task, t2: Task, w: Walk, frontier: seq<Node>, depth: nat)
    requires SameSubject(t1, t2) && !Ends(t2, frontier, depth) && Uncut(t1, WalkLevels(t2, w, frontier, depth))
    ensures depth < t1.policy.maxDepth
    ensures var v := WalkLevel(t2, w, frontier);
            && WalkLevels(t2, w, frontier, depth) == WalkLevels(t2, v, NextFrontier(w, v), depth + 1)
            && if LevelStarves(t2, w, frontier, t1.edgeBudget) then WalkLevels(t1, w, frontier, depth).truncated
               else WalkLevels(t1, w, frontier, depth) == WalkLevels(t1, v, NextFrontier(w, v), depth + 1)
  {
    NextLevel(t2, w, frontier, depth);
    UncutBefore(t1, WalkLevel(t2, w, frontier), WalkLevels(t2, w, frontier, depth));
    LevelCut(t1, t2, w, frontier);
    assert !Ends(t1, frontier, depth);
    NextLevel(t1, w, frontier, depth);
  }

  lemma NothingIsRun(t1: Task, t2: Task, w: Walk, frontier: seq<Node>, depth: nat)
    requires SameSubject(t1, t2) && Ends(t2, frontier, depth)
    ensures WalkLevels(t1, w, frontier, depth) == WalkLevels(t2, w, frontier, depth)
    ensures !LevelsStarve(t2, w, frontier, depth, t1.edgeBudget)
  {}

  lemma StarvesNext(t: Task, w: Walk, frontier: seq<Node>, depth: nat, budget: int)
    requires !Ends(t, frontier, depth)
    ensures var v := WalkLevel(t, w, frontier);
            LevelsStarve(t, w, frontier, depth, budget)
            <==> LevelStarves(t, w, frontier, budget)
                 || (depth < t.policy.maxDepth && LevelsStarve(t, v, NextFrontier(w, v), depth + 1, budget))
  {}

  lemma {:induction false} LevelsCut(t1: Task, t2: Task, w: Walk, frontier: seq<Node>, depth: nat)
    requires SameSubject(t1, t2) && Uncut(t1, WalkLevels(t2, w, frontier, depth))
    ensures Meets(LevelsStarve(t2, w, frontier, depth, t1.edgeBudget),
                  WalkLevels(t1, w, frontier, depth), WalkLevels(t2, w, frontier, depth))
    decreases t1.policy.maxDepth - depth
  {
    if Ends(t2, frontier, depth) {
      NothingIsRun(t1, t2, w, frontier, depth);
    } else {
      var v := WalkLevel(t2, w, frontier);
      FirstLevelCuts(t1, t2, w, frontier, depth);
      StarvesNext(t2, w, frontier, depth, t1.edgeBudget);
      LevelsCut(t1, t2, v, NextFrontier(w, v), depth + 1);
    }
  }

  // ---- Which is told by the last query

  /** A walk that last ran a query at `last` needed more than this budget. */
  predicate Short(last: Option<nat>, w: Walk, budget: int) {
    last.Some? && (budget <= last.value || budget < w.edgesWalked)
  }

  predicate Since(last: Option<nat>, w: Walk) {
    last.Some? ==> last.value <= w.edgesWalked
  }

  lemma QuerySpends(t: Task, w: Walk, q: Query)
    requires Anchored(q.rows, q.origins) && t.edgeBudget > w.edgesWalked && !WalkQuery(t, w, q).truncated
    ensures WalkQuery(t, w, q).edgesWalked == w.edgesWalked + |q.rows|
  {
    var left := t.edgeBudget - w.edgesWalked;
    WalkRowsGrows(t, Spend(w, q.rows, left), Take(q.rows, left), q.origins, q.rule);
  }

  lemma {:induction false} KeysShort(t: Task, w: Walk, keys: seq<RuleKey>, frontier: seq<Node>, had: Option<nat>,
                                     budget: int)
    requires (forall k :: k in keys ==> HasKey(t.policy.edges, k)) && Since(had, w)
    requires !WalkKeys(t, w, keys, frontier).truncated
    ensures var last, v := KeysLast(t, w, keys, frontier, had), WalkKeys(t, w, keys, frontier);
            && Since(last, v)
            && (Short(last, v, budget) <==> Short(had, w, budget) || KeysStarve(t, w, keys, frontier, budget))
    decreases |keys|
  {
    if keys != [] {
      var q := QueryFor(t, keys[0], frontier);
      var v := WalkQuery(t, w, q);
      WalkKeysGrows(t, v, keys[1..], frontier);
      QuerySpends(t, w, q);
      KeysShort(t, v, keys[1..], frontier, Some(w.edgesWalked), budget);
    }
  }

  lemma LevelShort(t: Task, w: Walk, frontier: seq<Node>, had: Option<nat>, budget: int)
    requires Since(had, w) && !WalkLevel(t, w, frontier).truncated
    ensures var last, v := LevelLast(t, w, frontier, had), WalkLevel(t, w, frontier);
            && Since(last, v)
            && (Short(last, v, budget) <==> Short(had, w, budget) || LevelStarves(t, w, frontier, budget))
  {
    LevelKeysKnown(t.policy, frontier);
    KeysShort(t, w, LevelKeys(t.policy, frontier), frontier, had, budget);
  }

  lemma {:induction false} LevelsShort(t: Task, w: Walk, frontier: seq<Node>, depth: nat, had: Option<nat>, budget: int)
    requires Since(had, w) && !WalkLevels(t, w, frontier, depth).truncated
    ensures Short(LevelsLast(t, w, frontier, depth, had), WalkLevels(t, w, frontier, depth), budget)
            <==> Short(had, w, budget) || LevelsStarve(t, w, frontier, depth, budget)
    decreases t.policy.maxDepth - depth
  {
    if !Ends(t, frontier, depth) {
      var v := WalkLevel(t, w, frontier);
      NextLevel(t, w, frontier, depth);
      LevelShort(t, w, frontier, had, budget);
      LevelsShort(t, v, NextFrontier(w, v), depth + 1, LevelLast(t, w, frontier, had), budget);
    }
  }

  /**
   * With room for its nodes, an edge budget cuts a walk exactly when it is less than the edges the walk walks, or is
   * used up when the last query is to be run, even if that one finds nothing; any other leaves the walk as it is.
   */
  lemma EdgeBudgetCutsExactly(t1: Task, t2: Task, seeds: seq<Node>)
    requires SameSubject(t1, t2) && !Expanded(t2, seeds).truncated && |Expanded(t2, seeds).nodes| <= t1.nodeBudget
    ensures Expanded(t1, seeds).truncated
            <==> var last := LastQuery(t2, seeds);
                 last.Some? && (t1.edgeBudget <= last.value || t1.edgeBudget < Expanded(t2, seeds).edgesWalked)
    ensures !Expanded(t1, seeds).truncated ==> Expanded(t1, seeds) == Expanded(t2, seeds)
  {
    var w := Start(seeds);
    LevelsCut(t1, t2, w, w.nodes, DeepestOf(w.nodes));
    LevelsShort(t2, w, w.nodes, DeepestOf(w.nodes), None, t1.edgeBudget);
  }
}
