// The budgets of a run, the setting's and the policy's, and what each mutation may spend of them.

module SimulationBudgets {
  import opened Ordering
  import opened Estate
  import opened Traversal
  import opened TraversalSound
  import opened TraversalBudget
  import opened Findings
  import opened Seeds
  import opened Simulation
  import opened SimulationProofs

  /** A total fits the setting and, unless it is zero, the policy's own budget. */
  predicate WithinBoth(total: nat, setting: int, own: int) {
    total <= setting && (own == 0 || total <= own)
  }

  /** `n` times `k` fits; a single unit always does. */
  ghost predicate Fits(k: nat, n: nat, setting: int, own: int) {
    k <= 1 || WithinBoth(Times(n, k), setting, own)
  }

  lemma QuotientIsLargest(k: nat, n: nat, budget: int)
    requires n > 0
    ensures k <= budget / n <==> k * n <= budget
  {
    assert budget == n * (budget / n) + budget % n;
    if k <= budget / n {
      assert k * n <= (budget / n) * n;
    } else {
      assert (budget / n + 1) * n <= k * n;
    }
  }

  /** A mutation's share is the most of which every mutation can have as much. */
  lemma ShareIsLargest(k: nat, n: nat, setting: int, own: int)
    requires n > 0
    ensures k <= Share(Effective(setting, own), n) <==> Fits(k, n, setting, own)
  {
    TimesIsProduct(n, k);
    QuotientIsLargest(k, n, setting);
    QuotientIsLargest(k, n, own);
  }

  /** What a mutation spent of either budget, every one of `n` mutations could spend. */
  ghost predicate KeepsToShare(o: Outcome, p: Policy, n: nat, maxNodes: int, maxEdges: int) {
    && Fits(|o.rows| + o.walk.edgesWalked, n, maxEdges, p.maxEdges)
    && Fits(|o.walk.nodes|, n, maxNodes, p.maxNodes)
  }

  lemma SpendingKeepsToShare(o: Outcome, p: Policy, n: nat, maxNodes: int, maxEdges: int)
    requires n > 0 && |o.rows| + o.walk.edgesWalked <= Share(Effective(maxEdges, p.maxEdges), n)
    requires |o.walk.nodes| <= Share(Effective(maxNodes, p.maxNodes), n)
    ensures KeepsToShare(o, p, n, maxNodes, maxEdges)
  {
    ShareIsLargest(|o.rows| + o.walk.edgesWalked, n, maxEdges, p.maxEdges);
    ShareIsLargest(|o.walk.nodes|, n, maxNodes, p.maxNodes);
  }

  lemma SimulatedKeepsToShare(g: Graph, p: Policy, i: nat, m: Mutation, n: nat, maxNodes: int, maxEdges: int)
    requires n > 0
    ensures KeepsToShare(Simulate(g, p, i, m, Share(Effective(maxNodes, p.maxNodes), n),
                                  Share(Effective(maxEdges, p.maxEdges), n)), p, n, maxNodes, maxEdges)
  {
    var nodes, edges := Share(Effective(maxNodes, p.maxNodes), n), Share(Effective(maxEdges, p.maxEdges), n);
    MutationWithinBudget(g, p, i, m, nodes, edges);
    SpendingKeepsToShare(Simulate(g, p, i, m, nodes, edges), p, n, maxNodes, maxEdges);
  }

  /** No mutation spends more than its share of either budget. */
  lemma EachKeepsToItsShare(g: Graph, p: Policy, ms: seq<Mutation>, maxNodes: int, maxEdges: int, i: nat)
    requires i < |ms|
    ensures KeepsToShare(Run(g, p, ms, maxNodes, maxEdges)[i], p, |ms|, maxNodes, maxEdges)
  {
    RunAt(g, p, ms, maxNodes, maxEdges, i);
    SimulatedKeepsToShare(g, p, i, ms[i], |ms|, maxNodes, maxEdges);
  }

  /** A total stays within both budgets, or is one unit for each mutation. */
  predicate TotalFits(total: nat, n: nat, setting: int, own: int) {
    total <= n || WithinBoth(total, setting, own)
  }

  lemma SharesFit(total: nat, n: nat, setting: int, own: int)
    requires n > 0 && total <= Times(n, Share(Effective(setting, own), n))
    ensures TotalFits(total, n, setting, own)
  {
    var share := Share(Effective(setting, own), n);
    TimesIsProduct(n, share);
    ShareIsLargest(share, n, setting, own);
  }

  /** However many mutations a change set has, together they stay within its budgets, or spend one unit each. */
  lemma BudgetsAreShared(g: Graph, p: Policy, ms: seq<Mutation>, maxNodes: int, maxEdges: int)
    requires ms != []
    ensures var os := Run(g, p, ms, maxNodes, maxEdges);
            && TotalFits(EdgesSpent(os), |ms|, maxEdges, p.maxEdges)
            && TotalFits(NodesWalked(os), |ms|, maxNodes, p.maxNodes)
  {
    var os := Run(g, p, ms, maxNodes, maxEdges);
    var nodes, edges := Share(Effective(maxNodes, p.maxNodes), |ms|), Share(Effective(maxEdges, p.maxEdges), |ms|);
    forall o | o in os ensures |o.rows| + o.walk.edgesWalked <= edges && |o.walk.nodes| <= nodes {
      var i :| 0 <= i < |os| && os[i] == o;
      MutationWithinBudget(g, p, i, ms[i], nodes, edges);
    }
    SpentAtMost(os, nodes, edges);
    SharesFit(EdgesSpent(os), |ms|, maxEdges, p.maxEdges);
    SharesFit(NodesWalked(os), |ms|, maxNodes, p.maxNodes);
  }

  // ---- And within its share a mutation is not cut

  lemma {:induction false} RoomTakesAll(p: Policy, m: Mutation, ordinal: nat, b1: nat, b2: nat, had: Intake,
                                        rows: seq<SeedRow>)
    requires !TakeIn(p, m, ordinal, b2, had, rows).limited && |TakeIn(p, m, ordinal, b2, had, rows).eligible| <= b1
    ensures TakeIn(p, m, ordinal, b1, had, rows) == TakeIn(p, m, ordinal, b2, had, rows)
    ensures |had.eligible| <= |TakeIn(p, m, ordinal, b2, had, rows).eligible|
    decreases |rows|
  {
    if rows != [] {
      var row, f := rows[0], SeedFinding(p, m, ordinal, rows[0]);
      if Verdict(p, row).Some? {
        RoomTakesAll(p, m, ordinal, b1, b2, had.(findings := had.findings + [f]), rows[1..]);
      } else {
        RoomTakesAll(p, m, ordinal, b1, b2, Intake(had.findings + [f], had.eligible + [row], had.limited), rows[1..]);
      }
    }
  }

  /** The part of an outcome that the budgets decide. */
  datatype Core = Core(rows: seq<SeedRow>, eligible: seq<SeedRow>, walk: Walk, limited: bool)

  function CoreOf(o: Outcome): Core {
    Core(o.rows, o.eligible, o.walk, o.limited)
  }

  function Cored(g: Graph, p: Policy, i: nat, m: Mutation, nodes: nat, edges: nat): Core {
    var rows, intake := Take(m.seeds, edges), Taken(p, i, m, nodes, edges);
    var walk := Expanded(Task(g, p, nodes, Left(edges, rows)), SeedNodes(p, m, intake.eligible));
    Core(rows, intake.eligible, walk, intake.limited || walk.truncated)
  }

  lemma CoreIsCored(g: Graph, p: Policy, i: nat, m: Mutation, nodes: nat, edges: nat)
    ensures CoreOf(Simulate(g, p, i, m, nodes, edges)) == Cored(g, p, i, m, nodes, edges)
  {}

  /** All that an uncut mutation took: its rows and edges, with one to spare, its nodes, and its accepted rows. */
  predicate Needs(c: Core, nodes: nat, edges: nat) {
    !c.limited && |c.rows| + c.walk.edgesWalked < edges && |c.walk.nodes| <= nodes && |c.eligible| <= nodes
  }

  lemma UncutTakesAllRows(p: Policy, m: Mutation, i: nat, nodes: nat, edges: nat)
    requires !Taken(p, i, m, nodes, edges).limited
    ensures Take(m.seeds, edges) == m.seeds
  {
    UnlimitedTakesAll(p, m, i, nodes, Intake([], [], |m.seeds| > edges), Take(m.seeds, edges));
  }

  lemma RoomForRows(p: Policy, m: Mutation, i: nat, nodes: nat, edges: nat, n: nat, e: nat)
    requires !Taken(p, i, m, n, e).limited && |Taken(p, i, m, n, e).eligible| <= nodes && |m.seeds| <= edges
    ensures Taken(p, i, m, nodes, edges) == Taken(p, i, m, n, e) && Take(m.seeds, edges) == m.seeds
  {
    UncutTakesAllRows(p, m, i, n, e);
    UnlimitedTakesAll(p, m, i, n, Intake([], [], |m.seeds| > e), Take(m.seeds, e));
    RoomTakesAll(p, m, i, nodes, n, Intake([], [], false), m.seeds);
  }

  lemma CoreIsUncut(g: Graph, p: Policy, i: nat, m: Mutation, n: nat, e: nat)
    requires !Cored(g, p, i, m, n, e).limited
    ensures var c := Cored(g, p, i, m, n, e);
            && !Taken(p, i, m, n, e).limited && c.eligible == Taken(p, i, m, n, e).eligible && c.rows == m.seeds
            && c.walk == Expanded(Task(g, p, n, Left(e, m.seeds)), SeedNodes(p, m, c.eligible)) && !c.walk.truncated
  {
    UncutTakesAllRows(p, m, i, n, e);
  }

  lemma CoredIs(g: Graph, p: Policy, i: nat, m: Mutation, nodes: nat, edges: nat, rows: seq<SeedRow>, intake: Intake,
                w: Walk)
    requires rows == Take(m.seeds, edges) && intake == Taken(p, i, m, nodes, edges)
    requires w == Expanded(Task(g, p, nodes, Left(edges, rows)), SeedNodes(p, m, intake.eligible))
    ensures Cored(g, p, i, m, nodes, edges) == Core(rows, intake.eligible, w, intake.limited || w.truncated)
  {}

  lemma LeftOver(rows: seq<SeedRow>, edges: nat)
    requires |rows| < edges
    ensures Left(edges, rows) == edges - |rows|
  {}

  lemma CoreFrom(g: Graph, p: Policy, i: nat, m: Mutation, nodes: nat, edges: nat, left: int, seeds: seq<Node>, c: Core)
    requires Take(m.seeds, edges) == c.rows && left == Left(edges, c.rows) && !c.limited && !c.walk.truncated
    requires Taken(p, i, m, nodes, edges).eligible == c.eligible && !Taken(p, i, m, nodes, edges).limited
    requires seeds == SeedNodes(p, m, c.eligible) && Expanded(Task(g, p, nodes, left), seeds) == c.walk
    ensures Cored(g, p, i, m, nodes, edges) == c
  {
    CoredIs(g, p, i, m, nodes, edges, c.rows, Taken(p, i, m, nodes, edges), c.walk);
  }

  lemma SameRows(p: Policy, i: nat, m: Mutation, nodes: nat, edges: nat, n: nat, e: nat, c: Core)
    requires !Taken(p, i, m, n, e).limited && c.eligible == Taken(p, i, m, n, e).eligible && c.rows == m.seeds
    requires |c.rows| <= edges && |c.eligible| <= nodes
    ensures Take(m.seeds, edges) == c.rows
    ensures Taken(p, i, m, nodes, edges).eligible == c.eligible && !Taken(p, i, m, nodes, edges).limited
  {
    RoomForRows(p, m, i, nodes, edges, n, e);
  }

  lemma SameWalk(g: Graph, p: Policy, nodes: nat, edges: nat, n: nat, before: int, left: int, seeds: seq<Node>, c: Core)
    requires c.walk == Expanded(Task(g, p, n, before), seeds) && !c.walk.truncated
    requires Needs(c, nodes, edges) && left == edges - |c.rows|
    ensures Expanded(Task(g, p, nodes, left), seeds) == c.walk
  {
    UnspentBudgetSuffices(Task(g, p, nodes, left), Task(g, p, n, before), seeds);
  }

  lemma CoreFits(g: Graph, p: Policy, i: nat, m: Mutation, nodes: nat, edges: nat, n: nat, e: nat, c: Core)
    requires !Taken(p, i, m, n, e).limited && c.eligible == Taken(p, i, m, n, e).eligible && c.rows == m.seeds
    requires c.walk == Expanded(Task(g, p, n, Left(e, m.seeds)), SeedNodes(p, m, c.eligible))
    requires Needs(c, nodes, edges) && !c.walk.truncated
    ensures Cored(g, p, i, m, nodes, edges) == c
  {
    SameRows(p, i, m, nodes, edges, n, e, c);
    var seeds, left := SeedNodes(p, m, c.eligible), Left(edges, c.rows);
    LeftOver(c.rows, edges);
    SameWalk(g, p, nodes, edges, n, Left(e, m.seeds), left, seeds, c);
    CoreFrom(g, p, i, m, nodes, edges, left, seeds, c);
  }

  /** A mutation that was not cut is not cut, and takes the same walk, under any share with room for what it took. */
  lemma RoomIsEnough(g: Graph, p: Policy, i: nat, m: Mutation, nodes: nat, edges: nat, n: nat, e: nat)
    requires Needs(CoreOf(Simulate(g, p, i, m, n, e)), nodes, edges)
    ensures CoreOf(Simulate(g, p, i, m, nodes, edges)) == CoreOf(Simulate(g, p, i, m, n, e))
  {
    CoreIsCored(g, p, i, m, n, e);
    CoreIsCored(g, p, i, m, nodes, edges);
    CoreIsUncut(g, p, i, m, n, e);
    CoreFits(g, p, i, m, nodes, edges, n, e, Cored(g, p, i, m, n, e));
  }

  /** What each mutation needs, with one edge to spare, fits the budgets as many times as there are mutations. */
  ghost predicate Affords(g: Graph, p: Policy, ms: seq<Mutation>, maxNodes: int, maxEdges: int, i: nat)
    requires i < |ms|
  {
    exists n: nat, e: nat, nodes: nat, edges: nat ::
      && Needs(CoreOf(Simulate(g, p, i, ms[i], n, e)), nodes, edges)
      && Fits(nodes, |ms|, maxNodes, p.maxNodes) && Fits(edges, |ms|, maxEdges, p.maxEdges)
  }

  lemma AffordedIsUncut(g: Graph, p: Policy, ms: seq<Mutation>, maxNodes: int, maxEdges: int, i: nat)
    requires i < |ms| && Affords(g, p, ms, maxNodes, maxEdges, i)
    ensures !Run(g, p, ms, maxNodes, maxEdges)[i].limited
  {
    var n: nat, e: nat, nodes: nat, edges: nat :|
      Needs(CoreOf(Simulate(g, p, i, ms[i], n, e)), nodes, edges)
      && Fits(nodes, |ms|, maxNodes, p.maxNodes) && Fits(edges, |ms|, maxEdges, p.maxEdges);
    RunAt(g, p, ms, maxNodes, maxEdges, i);
    ShareIsLargest(nodes, |ms|, maxNodes, p.maxNodes);
    ShareIsLargest(edges, |ms|, maxEdges, p.maxEdges);
    RoomIsEnough(g, p, i, ms[i], Share(Effective(maxNodes, p.maxNodes), |ms|),
                 Share(Effective(maxEdges, p.maxEdges), |ms|), n, e);
  }

  /** Budgets that have room for what every mutation needs limit none of them. */
  lemma RoomForAllIsUnlimited(g: Graph, p: Policy, ms: seq<Mutation>, maxNodes: int, maxEdges: int)
    requires ms != [] && forall i: nat :: i < |ms| ==> Affords(g, p, ms, maxNodes, maxEdges, i)
    ensures !AnyLimited(Run(g, p, ms, maxNodes, maxEdges))
  {
    var os := Run(g, p, ms, maxNodes, maxEdges);
    forall o | o in os ensures !o.limited {
      var i :| 0 <= i < |os| && os[i] == o;
      AffordedIsUncut(g, p, ms, maxNodes, maxEdges, i);
    }
  }
}
