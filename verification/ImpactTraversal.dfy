// The traversal engine itself: loops that mutate a result, proved against the walk function.

module ImpactTraversal {
  import opened Ordering
  import opened Estate
  import opened Traversal
  import opened TraversalSound
  import opened TraversalReach

  class TraversalResult {
    var nodes: seq<Node>
    var stopped: seq<StoppedBranch>
    var limitations: seq<Limit>
    var truncated: bool
    var edgesWalked: nat

    function Snapshot(): Walk
      reads this
    {
      Walk(nodes, stopped, limitations, truncated, edgesWalked)
    }

    constructor ()
      ensures Snapshot() == Walk([], [], [], false, 0)
    {
      nodes, stopped, limitations, truncated, edgesWalked := [], [], [], false, 0;
    }

    method Announce(code: Limit)
      modifies this
      ensures Snapshot() == old(Snapshot()).(limitations := Note(old(limitations), code))
    {
      if code !in limitations {
        limitations := limitations + [code];
      }
    }

    method Cut()
      modifies this
      ensures Snapshot() == Truncate(old(Snapshot()))
    {
      truncated := true;
      Announce(TraversalBudget);
    }
  }

  /** The dict of entities met so far mirrors the node list. */
  ghost predicate Mirrors(seen: map<EntityId, Node>, nodes: seq<Node>) {
    seen.Keys == Ids(nodes) && |seen| == |nodes|
  }

  /** The next frontier so far is what the node list gained since `start`. */
  ghost predicate Tracks(nodes: seq<Node>, start: nat, next: seq<Node>) {
    start <= |nodes| && next == nodes[start..]
  }

  lemma MirrorsOneMore(seen: map<EntityId, Node>, nodes: seq<Node>, n: Node)
    requires Mirrors(seen, nodes) && n.id !in seen
    ensures Mirrors(seen[n.id := n], nodes + [n])
  {
    assert Ids(nodes + [n]) == Ids(nodes) + {n.id} by {
      assert n in nodes + [n];
      forall m | m in nodes ensures m in nodes + [n] {}
    }
  }

  lemma TracksOneMore(nodes: seq<Node>, start: nat, next: seq<Node>, n: Node)
    requires Tracks(nodes, start, next)
    ensures Tracks(nodes + [n], start, next + [n])
  {}

  /** What row `i` does to the walk before the rows after it. */
  lemma OneRow(t: Task, w: Walk, rows: seq<Row>, i: nat, origins: map<EntityId, Node>, r: Rule)
    requires i < |rows| && Anchored(rows[i..], origins)
    ensures rows[i].origin in origins && Anchored(rows[i + 1..], origins)
    ensures WalkRows(t, w, rows[i..], origins, r) ==
            match Eligibility(rows[i].evidenced, rows[i].confidence, t.policy.minimumConfidence)
            case Some(reason) =>
              var stop := StoppedAt(rows[i], origins[rows[i].origin], r, reason);
              WalkRows(t, w.(stopped := w.stopped + [stop]), rows[i + 1..], origins, r)
            case None =>
              var node := NodeAt(rows[i], origins[rows[i].origin], r);
              if rows[i].id in Ids(w.nodes) then WalkRows(t, w, rows[i + 1..], origins, r)
              else if |w.nodes| >= t.nodeBudget then Truncate(w)
              else WalkRows(t, w.(nodes := w.nodes + [node]), rows[i + 1..], origins, r)
  {
    assert rows[i..][0] == rows[i] && rows[i..][1..] == rows[i + 1..];
    assert rows[i] in rows[i..];
    forall row | row in rows[i + 1..] ensures row in rows[i..] {}
  }

  predicate Listed(grouped: map<RuleKey, seq<Node>>, k: RuleKey, n: Node) {
    k in grouped && n in grouped[k]
  }

  class Traverser {
    const graph: Graph
    const policy: Policy

    constructor (graph: Graph, policy: Policy)
      ensures this.graph == graph && this.policy == policy
    {
      this.graph, this.policy := graph, policy;
    }

    /** Which nodes a key groups, while the first `j` of the rules for node `i` have been seen. */
    ghost predicate InGroup(frontier: seq<Node>, i: nat, rules: seq<Rule>, j: nat, k: RuleKey, n: Node)
      requires i <= |frontier| && j <= |rules|
    {
      || (n in frontier[..i] && AdmitsKey(policy, k, n))
      || (i < |frontier| && n == frontier[i] && exists r :: r in rules[..j] && KeyOf(r) == k)
    }

    ghost predicate Grouped(frontier: seq<Node>, i: nat, rules: seq<Rule>, j: nat,
                            order: seq<RuleKey>, grouped: map<RuleKey, seq<Node>>)
      requires i <= |frontier| && j <= |rules|
    {
      && (forall a, b :: 0 <= a < b < |order| ==> order[a] != order[b])
      && (forall k :: k in order <==> k in grouped)
      && (forall k, n :: Listed(grouped, k, n) <==> InGroup(frontier, i, rules, j, k, n))
      && (forall k :: k in grouped ==> grouped[k] != [])
    }

    lemma GroupOne(frontier: seq<Node>, i: nat, rules: seq<Rule>, j: nat, order: seq<RuleKey>,
                   grouped: map<RuleKey, seq<Node>>)
      requires i < |frontier| && j < |rules| && Grouped(frontier, i, rules, j, order, grouped)
      ensures var k := KeyOf(rules[j]);
              var order' := if k in grouped then order else order + [k];
              var grouped' := grouped[k := (if k in grouped then grouped[k] else []) + [frontier[i]]];
              Grouped(frontier, i, rules, j + 1, order', grouped')
    {
      var k := KeyOf(rules[j]);
      var order' := if k in grouped then order else order + [k];
      var grouped' := grouped[k := (if k in grouped then grouped[k] else []) + [frontier[i]]];
      assert rules[..j+1] == rules[..j] + [rules[j]];
      forall q, n ensures Listed(grouped', q, n) <==> InGroup(frontier, i, rules, j + 1, q, n) {
        assert Listed(grouped', q, n) <==> Listed(grouped, q, n) || (q == k && n == frontier[i]);
        if n == frontier[i] && exists r :: r in rules[..j+1] && KeyOf(r) == q {
          var r :| r in rules[..j+1] && KeyOf(r) == q;
          assert r in rules[..j] || r == rules[j];
        }
        assert rules[j] in rules[..j+1];
        forall r | r in rules[..j] ensures r in rules[..j+1] {}
      }
      forall a, b | 0 <= a < b < |order'| ensures order'[a] != order'[b] {
        if b == |order| { assert order[a] in order; }
      }
    }

    lemma GroupNext(frontier: seq<Node>, i: nat, rules: seq<Rule>, order: seq<RuleKey>,
                    grouped: map<RuleKey, seq<Node>>)
      requires i < |frontier| && rules == RulesFor(policy, frontier[i].kind, frontier[i].depth)
      requires Grouped(frontier, i, rules, |rules|, order, grouped)
      ensures Grouped(frontier, i + 1, [], 0, order, grouped)
    {
      assert rules[..|rules|] == rules;
      assert frontier[..i+1] == frontier[..i] + [frontier[i]];
      var none: seq<Rule> := [];
      assert forall r :: r !in none[..0];
      forall k, n ensures Listed(grouped, k, n) <==> InGroup(frontier, i + 1, [], 0, k, n) {
        assert Listed(grouped, k, n) <==> InGroup(frontier, i, rules, |rules|, k, n);
        assert AdmitsKey(policy, k, frontier[i]) <==> exists r :: r in rules && KeyOf(r) == k;
        assert n in frontier[..i+1] <==> n in frontier[..i] || n == frontier[i];
      }
    }

    lemma GroupBegins(frontier: seq<Node>, i: nat, rules: seq<Rule>, order: seq<RuleKey>,
                      grouped: map<RuleKey, seq<Node>>)
      requires i <= |frontier| && Grouped(frontier, i, [], 0, order, grouped)
      ensures Grouped(frontier, i, rules, 0, order, grouped)
    {
      var none: seq<Rule> := [];
      assert none[..0] == rules[..0];
      forall k, n ensures Listed(grouped, k, n) <==> InGroup(frontier, i, rules, 0, k, n) {
        assert Listed(grouped, k, n) <==> InGroup(frontier, i, [], 0, k, n);
      }
    }

    lemma GroupEnds(frontier: seq<Node>, order: seq<RuleKey>, grouped: map<RuleKey, seq<Node>>)
      requires Grouped(frontier, |frontier|, [], 0, order, grouped)
      ensures forall k, n :: Listed(grouped, k, n) <==> n in frontier && AdmitsKey(policy, k, n)
    {
      assert frontier[..|frontier|] == frontier;
      forall k, n ensures Listed(grouped, k, n) <==> n in frontier && AdmitsKey(policy, k, n) {
        assert Listed(grouped, k, n) <==> InGroup(frontier, |frontier|, [], 0, k, n);
      }
    }

    method Group(frontier: seq<Node>) returns (order: seq<RuleKey>, grouped: map<RuleKey, seq<Node>>)
      ensures SortBy(order, RuleOrder) == LevelKeys(policy, frontier)
      ensures forall k :: k in order <==> k in grouped
      ensures forall k, n :: Listed(grouped, k, n) <==> n in frontier && AdmitsKey(policy, k, n)
    {
      order, grouped := [], map[];
      for i := 0 to |frontier|
        invariant Grouped(frontier, i, [], 0, order, grouped)
      {
        order, grouped := GroupNode(frontier, i, order, grouped);
      }
      GroupEnds(frontier, order, grouped);
      GroupIsLevel(frontier, order, grouped);
    }

    /** One frontier node joins the group of every rule that admits it. */
    method GroupNode(frontier: seq<Node>, i: nat, order0: seq<RuleKey>, grouped0: map<RuleKey, seq<Node>>)
      returns (order: seq<RuleKey>, grouped: map<RuleKey, seq<Node>>)
      requires i < |frontier| && Grouped(frontier, i, [], 0, order0, grouped0)
      ensures Grouped(frontier, i + 1, [], 0, order, grouped)
    {
      order, grouped := order0, grouped0;
      var rules := RulesFor(policy, frontier[i].kind, frontier[i].depth);
      GroupBegins(frontier, i, rules, order, grouped);
      for j := 0 to |rules|
        invariant Grouped(frontier, i, rules, j, order, grouped)
      {
        var k := KeyOf(rules[j]);
        GroupOne(frontier, i, rules, j, order, grouped);
        if k !in grouped {
          order := order + [k];
          grouped := grouped[k := []];
        }
        grouped := grouped[k := grouped[k] + [frontier[i]]];
      }
      GroupNext(frontier, i, rules, order, grouped);
    }

    lemma GroupIsLevel(frontier: seq<Node>, order: seq<RuleKey>, grouped: map<RuleKey, seq<Node>>)
      requires Grouped(frontier, |frontier|, [], 0, order, grouped)
      ensures SortBy(order, RuleOrder) == LevelKeys(policy, frontier)
    {
      var keys := KeysAmong(policy, policy.edges, frontier);
      GroupEnds(frontier, order, grouped);
      forall k ensures k in order <==> k in keys {
        if k in order {
          assert Listed(grouped, k, grouped[k][0]);
        }
        if k in keys {
          var n :| n in frontier && AdmitsKey(policy, k, n);
          assert Listed(grouped, k, n);
        }
      }
      SameElementsSameMultiset(order, keys);
      forall a, b | a in order && b in order && RuleOrder(a) == RuleOrder(b) ensures a == b {
        RuleOrderInjective(a, b);
      }
      SortForgetsOrder(order, keys, RuleOrder);
    }

    /** The nodes of a group by their entity. */
    method OriginsOf(ghost frontier: seq<Node>, ghost k: RuleKey, group: seq<Node>)
        returns (origins: map<EntityId, Node>)
      requires Unique(frontier)
      requires forall n :: n in group <==> n in frontier && AdmitsKey(policy, k, n)
      ensures origins == Origins(policy, k, frontier)
    {
      origins := map[];
      for i := 0 to |group|
        invariant forall o :: o in origins ==> origins[o] in group && origins[o].id == o
        invariant forall n :: n in group[..i] ==> n.id in origins
      {
        origins := origins[group[i].id := group[i]];
        assert group[..i+1] == group[..i] + [group[i]];
      }
      assert group[..|group|] == group;
      OriginsAre(policy, k, frontier);
      var spec := Origins(policy, k, frontier);
      assert origins.Keys == spec.Keys;
      forall o | o in origins ensures origins[o] == spec[o] {
        var a :| 0 <= a < |frontier| && frontier[a] == origins[o];
        var b :| 0 <= b < |frontier| && frontier[b] == spec[o];
      }
    }

    /** The rows of one query; `break` ends them when the node budget is full. */
    method TakeRows(t: Task, result: TraversalResult, seen: map<EntityId, Node>, next: seq<Node>, ghost start: nat,
                    rows: seq<Row>,
                    origins: map<EntityId, Node>, rule: Rule)
      returns (seen': map<EntityId, Node>, next': seq<Node>)
      requires t.graph == graph && t.policy == policy
      requires Anchored(rows, origins) && Mirrors(seen, result.nodes) && Tracks(result.nodes, start, next)
      modifies result
      ensures result.Snapshot() == WalkRows(t, old(result.Snapshot()), rows, origins, rule)
      ensures Mirrors(seen', result.nodes) && Tracks(result.nodes, start, next')
    {
      seen', next' := seen, next;
      var i := 0;
      ghost var whole := WalkRows(t, result.Snapshot(), rows, origins, rule);
      while i < |rows|
        invariant 0 <= i <= |rows| && Anchored(rows[i..], origins)
        invariant WalkRows(t, result.Snapshot(), rows[i..], origins, rule) == whole
        invariant Mirrors(seen', result.nodes) && Tracks(result.nodes, start, next')
      {
        var row := rows[i];
        OneRow(t, result.Snapshot(), rows, i, origins, rule);
        var origin := origins[row.origin];
        var reason := Eligibility(row.evidenced, row.confidence, policy.minimumConfidence);
        i := i + 1;
        if reason.Some? {
          result.stopped := result.stopped + [StoppedAt(row, origin, rule, reason.value)];
        } else if row.id !in seen' {
          if |seen'| >= t.nodeBudget {
            result.Cut();
            break;
          }
          var node := NodeAt(row, origin, rule);
          MirrorsOneMore(seen', result.nodes, node);
          TracksOneMore(result.nodes, start, next', node);
          seen' := seen'[row.id := node];
          result.nodes := result.nodes + [node];
          next' := next' + [node];
        }
      }
    }

    method SpendEdges(result: TraversalResult, ghost all: seq<Row>, fetched: seq<Row>, remaining: nat)
        returns (rows: seq<Row>)
      requires fetched == Take(all, remaining + 1)
      modifies result
      ensures rows == Take(all, remaining) && result.Snapshot() == Spend(old(result.Snapshot()), all, remaining)
      ensures result.nodes == old(result.nodes)
    {
      rows := fetched;
      FetchIsSpend(all, remaining);
      if |rows| > remaining {
        rows := rows[..remaining];
        result.Cut();
      }
      result.edgesWalked := result.edgesWalked + |rows|;
    }

    /** One query: fetch one row more than the budget allows, cut, count, and take what is left. */
    method TakeKey(t: Task, result: TraversalResult, seen: map<EntityId, Node>, next: seq<Node>, ghost start: nat,
                   ghost frontier: seq<Node>, key: RuleKey, origins: map<EntityId, Node>, remaining: nat)
      returns (seen': map<EntityId, Node>, next': seq<Node>)
      requires t.graph == graph && t.policy == policy && HasKey(policy.edges, key)
      requires origins == Origins(policy, key, frontier)
      requires Mirrors(seen, result.nodes) && Tracks(result.nodes, start, next)
      requires remaining == t.edgeBudget - result.edgesWalked && remaining > 0
      modifies result
      ensures result.Snapshot() == WalkQuery(t, old(result.Snapshot()), QueryFor(t, key, frontier))
      ensures Mirrors(seen', result.nodes) && Tracks(result.nodes, start, next')
    {
      ghost var q := QueryFor(t, key, frontier);
      var rule := FirstRule(policy.edges, key);
      var fetched := Fetch(graph, rule, origins.Keys, remaining + 1);
      var rows := SpendEdges(result, q.rows, fetched, remaining);
      seen', next' := TakeRows(t, result, seen, next, start, rows, origins, rule);
    }

    /** The queries of one level, in key order. */
    method TakeLevel(t: Task, result: TraversalResult, seen: map<EntityId, Node>, ghost frontier: seq<Node>,
                     keys: seq<RuleKey>, grouped: map<RuleKey, seq<Node>>)
      returns (seen': map<EntityId, Node>, next: seq<Node>)
      requires t.graph == graph && t.policy == policy
      requires Unique(frontier) && Mirrors(seen, result.nodes)
      requires keys == LevelKeys(policy, frontier)
      requires forall k :: k in keys ==> k in grouped
      requires forall k, n :: Listed(grouped, k, n) <==> n in frontier && AdmitsKey(policy, k, n)
      modifies result
      ensures result.Snapshot() == WalkLevel(t, old(result.Snapshot()), frontier)
      ensures Mirrors(seen', result.nodes) && Tracks(result.nodes, |old(result.nodes)|, next)
    {
      seen', next := seen, [];
      LevelKeysKnown(policy, frontier);
      var i := 0;
      ghost var start, whole := |result.nodes|, WalkLevel(t, result.Snapshot(), frontier);
      assert keys[0..] == keys;
      while i < |keys|
        invariant 0 <= i <= |keys|
        invariant forall k :: k in keys[i..] ==> HasKey(policy.edges, k)
        invariant WalkKeys(t, result.Snapshot(), keys[i..], frontier) == whole
        invariant Mirrors(seen', result.nodes) && Tracks(result.nodes, start, next)
      {
        var key := keys[i];
        assert keys[i..][0] == key && keys[i..][1..] == keys[i+1..];
        assert forall n :: n in grouped[key] <==> Listed(grouped, key, n);
        var origins := OriginsOf(frontier, key, grouped[key]);
        var remaining := t.edgeBudget - result.edgesWalked;
        if remaining <= 0 {
          result.Cut();
          break;
        }
        seen', next := TakeKey(t, result, seen', next, start, frontier, key, origins, remaining);
        i := i + 1;
      }
    }

    lemma FetchIsSpend(all: seq<Row>, remaining: nat)
      ensures var rows := Take(all, remaining + 1);
              (|rows| > remaining <==> |all| > remaining)
              && (if |rows| > remaining then rows[..remaining] else rows) == Take(all, remaining)
    {}

    method TakeSeeds(seeds: seq<Node>, result: TraversalResult) returns (seen: map<EntityId, Node>)
      requires result.Snapshot() == Walk([], [], [], false, 0)
      modifies result
      ensures result.Snapshot() == Start(seeds) && Mirrors(seen, result.nodes)
    {
      seen := map[];
      var ordered := SortBy(seeds, NodeOrder);
      for i := 0 to |ordered|
        invariant result.Snapshot() == Walk(Distinct(ordered[..i]), [], [], false, 0)
        invariant Mirrors(seen, result.nodes)
      {
        var seed := ordered[i];
        assert ordered[..i+1][..i] == ordered[..i];
        if seed.id !in seen {
          MirrorsOneMore(seen, result.nodes, seed);
          seen := seen[seed.id := seed];
          result.nodes := result.nodes + [seed];
        }
      }
      assert ordered[..|ordered|] == ordered;
    }

    ghost predicate LevelInvariant(t: Task, roots: seq<Node>, w: Walk, frontier: seq<Node>) {
      Sound(t, roots, w.nodes) && Unique(frontier) && forall n :: n in frontier ==> n in w.nodes
    }

    lemma StartHoldsInvariant(t: Task, seeds: seq<Node>)
      ensures LevelInvariant(t, Roots(seeds), Start(seeds), Roots(seeds))
    {
      RootsAreSeeds(seeds);
    }

    lemma LevelKeepsInvariant(t: Task, roots: seq<Node>, w: Walk, frontier: seq<Node>)
      requires LevelInvariant(t, roots, w, frontier)
      ensures var w' := WalkLevel(t, w, frontier); LevelInvariant(t, roots, w', NextFrontier(w, w'))
    {
      LevelIsSound(t, roots, w, frontier);
      NextFrontierIsUnique(w, WalkLevel(t, w, frontier));
    }

    method StepLevel(t: Task, result: TraversalResult, seen: map<EntityId, Node>, ghost frontier: seq<Node>,
                     order: seq<RuleKey>, grouped: map<RuleKey, seq<Node>>)
      returns (seen': map<EntityId, Node>, frontier': seq<Node>)
      requires t.graph == graph && t.policy == policy
      requires Unique(frontier) && Mirrors(seen, result.nodes)
      requires SortBy(order, RuleOrder) == LevelKeys(policy, frontier)
      requires forall k :: k in order ==> k in grouped
      requires forall k, n :: Listed(grouped, k, n) <==> n in frontier && AdmitsKey(policy, k, n)
      modifies result
      ensures result.Snapshot() == WalkLevel(t, old(result.Snapshot()), frontier) && Mirrors(seen', result.nodes)
      ensures frontier' == NextFrontier(old(result.Snapshot()), result.Snapshot())
    {
      KeysAppear(order, frontier);
      var next;
      seen', next := TakeLevel(t, result, seen, frontier, SortBy(order, RuleOrder), grouped);
      frontier' := SortBy(next, NodeOrder);
    }

    /** What is left to walk from here is what was left to walk at the start. */
    ghost predicate OnCourse(t: Task, roots: seq<Node>, whole: Walk, w: Walk, frontier: seq<Node>, depth: nat) {
      LevelInvariant(t, roots, w, frontier) && WalkLevels(t, w, frontier, depth) == whole
    }

    lemma StaysOnCourse(t: Task, roots: seq<Node>, whole: Walk, w: Walk, frontier: seq<Node>, depth: nat)
      requires OnCourse(t, roots, whole, w, frontier, depth) && !Ends(t, frontier, depth)
      ensures var w' := WalkLevel(t, w, frontier); OnCourse(t, roots, whole, w', NextFrontier(w, w'), depth + 1)
    {
      LevelKeepsInvariant(t, roots, w, frontier);
    }

    lemma EndOfCourse(t: Task, roots: seq<Node>, whole: Walk, w: Walk, frontier: seq<Node>, depth: nat)
      requires OnCourse(t, roots, whole, w, frontier, depth) && Ends(t, frontier, depth)
      ensures Finish(t, w, frontier, depth) == whole
    {}

    /** Where the loop over levels stands: on course, and at its end once no rule admits the frontier. */
    ghost predicate Stands(t: Task, roots: seq<Node>, whole: Walk, w: Walk, frontier: seq<Node>, depth: nat,
                           ended: bool) {
      OnCourse(t, roots, whole, w, frontier, depth) && (ended ==> Ends(t, frontier, depth))
    }

    /** One turn of the loop over levels: no rule admits the frontier, or the next level is walked. */
    method NextLevel(t: Task, result: TraversalResult, seen: map<EntityId, Node>, frontier: seq<Node>, depth: nat,
                     ghost roots: seq<Node>, ghost whole: Walk)
      returns (ended: bool, seen': map<EntityId, Node>, frontier': seq<Node>, depth': nat)
      requires t.graph == graph && t.policy == policy && Mirrors(seen, result.nodes)
      requires frontier != [] && depth < policy.maxDepth
      requires Stands(t, roots, whole, result.Snapshot(), frontier, depth, false)
      modifies result
      ensures Mirrors(seen', result.nodes)
      ensures Stands(t, roots, whole, result.Snapshot(), frontier', depth', ended)
      ensures depth' == if ended then depth else depth + 1
    {
      var order, grouped := Group(frontier);
      ended, depth' := order == [], depth;
      if ended {
        seen', frontier' := seen, frontier;
      } else {
        KeysAppear(order, frontier);
        SortKeepsMembers(order, RuleOrder);
        assert order[0] in LevelKeys(policy, frontier);
        StaysOnCourse(t, roots, whole, result.Snapshot(), frontier, depth);
        seen', frontier' := StepLevel(t, result, seen, frontier, order, grouped);
        depth' := depth + 1;
      }
    }

    lemma StandsAtEnd(t: Task, roots: seq<Node>, whole: Walk, w: Walk, frontier: seq<Node>, depth: nat, ended: bool)
      requires Stands(t, roots, whole, w, frontier, depth, ended)
      requires ended || frontier == [] || depth >= t.policy.maxDepth
      ensures Finish(t, w, frontier, depth) == whole
    {
      EndOfCourse(t, roots, whole, w, frontier, depth);
    }

    /** The loop over levels. */
    method Descend(t: Task, result: TraversalResult, seen0: map<EntityId, Node>, frontier0: seq<Node>, depth0: nat,
                   ghost roots: seq<Node>, ghost whole: Walk)
      returns (frontier: seq<Node>, depth: nat)
      requires t.graph == graph && t.policy == policy && Mirrors(seen0, result.nodes)
      requires Stands(t, roots, whole, result.Snapshot(), frontier0, depth0, false)
      modifies result
      ensures Finish(t, result.Snapshot(), frontier, depth) == whole
    {
      var seen, ended := seen0, false;
      frontier, depth := frontier0, depth0;
      while !ended && frontier != [] && depth < policy.maxDepth
        invariant Mirrors(seen, result.nodes)
        invariant Stands(t, roots, whole, result.Snapshot(), frontier, depth, ended)
        decreases policy.maxDepth - depth, if ended then 0 else 1
      {
        ended, seen, frontier, depth := NextLevel(t, result, seen, frontier, depth, roots, whole);
      }
      StandsAtEnd(t, roots, whole, result.Snapshot(), frontier, depth, ended);
    }

    method RunLevels(t: Task, result: TraversalResult, seen: map<EntityId, Node>, frontier0: seq<Node>, depth0: nat,
                     ghost roots: seq<Node>)
      requires t.graph == graph && t.policy == policy && Mirrors(seen, result.nodes)
      requires LevelInvariant(t, roots, result.Snapshot(), frontier0)
      modifies result
      ensures result.Snapshot() == WalkLevels(t, old(result.Snapshot()), frontier0, depth0)
    {
      ghost var whole := WalkLevels(t, result.Snapshot(), frontier0, depth0);
      var frontier, depth := Descend(t, result, seen, frontier0, depth0, roots, whole);
      Conclude(t, result, frontier, depth);
    }

    /** Walk the estate from the seeds under the policy and the two budgets. */
    method Expand(seeds: seq<Node>, nodeBudget: int, edgeBudget: int) returns (result: TraversalResult)
      ensures fresh(result)
      ensures result.Snapshot() == Expanded(Task(graph, policy, nodeBudget, edgeBudget), seeds)
    {
      var t := Task(graph, policy, nodeBudget, edgeBudget);
      result := new TraversalResult();
      var seen := TakeSeeds(seeds, result);
      StartHoldsInvariant(t, seeds);
      RunLevels(t, result, seen, result.nodes, DeepestOf(result.nodes), Roots(seeds));
    }

    method Conclude(t: Task, result: TraversalResult, frontier: seq<Node>, depth: nat)
      requires t.policy == policy
      modifies result
      ensures result.Snapshot() == Finish(t, old(result.Snapshot()), frontier, depth)
    {
      if frontier != [] && depth >= policy.maxDepth && "MAX_DEPTH" in policy.stopConditions {
        result.Announce(MaxDepth);
      }
    }

    lemma KeysAppear(order: seq<RuleKey>, frontier: seq<Node>)
      requires SortBy(order, RuleOrder) == LevelKeys(policy, frontier)
      ensures forall k :: k in LevelKeys(policy, frontier) ==> k in order
    {
      SortKeepsMembers(order, RuleOrder);
    }
  }
}
