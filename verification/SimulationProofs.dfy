// What a simulation run guarantees: shared budgets, complete results when it says so, and keys that identify findings.

module SimulationProofs {
  import opened Ordering
  import opened Estate
  import opened Traversal
  import opened TraversalSound
  import opened TraversalReach
  import opened TraversalBudget
  import opened TraversalPolicy
  import opened TraversalShape
  import opened Findings
  import opened Seeds
  import opened Simulation

  // ---- Budgets belong to the change set

  lemma {:induction false} TakesWithinBudget(p: Policy, m: Mutation, ordinal: nat, budget: nat, had: Intake,
                                             rows: seq<SeedRow>)
    requires |had.eligible| <= budget
    ensures |TakeIn(p, m, ordinal, budget, had, rows).eligible| <= budget
    decreases |rows|
  {
    if rows != [] {
      var row, f := rows[0], SeedFinding(p, m, ordinal, rows[0]);
      if Verdict(p, row).Some? {
        TakesWithinBudget(p, m, ordinal, budget, had.(findings := had.findings + [f]), rows[1..]);
      } else if |had.eligible| < budget {
        TakesWithinBudget(p, m, ordinal, budget, Intake(had.findings + [f], had.eligible + [row], had.limited),
                          rows[1..]);
      }
    }
  }

  lemma MutationWithinBudget(g: Graph, p: Policy, ordinal: nat, m: Mutation, nodes: nat, edges: nat)
    ensures var o := Simulate(g, p, ordinal, m, nodes, edges);
            |o.rows| + o.walk.edgesWalked <= edges && |o.walk.nodes| <= nodes
  {
    var rows, intake := Take(m.seeds, edges), Taken(p, ordinal, m, nodes, edges);
    var seeds := SeedNodes(p, m, intake.eligible);
    var t := Task(g, p, nodes, Left(edges, rows));
    TakesWithinBudget(p, m, ordinal, nodes, Intake([], [], |m.seeds| > edges), rows);
    AtMostCount(seeds);
    EdgeBudgetHolds(t, seeds);
    NodeBudgetHolds(t, seeds);
  }

  function EdgesSpent(os: seq<Outcome>): nat
    decreases |os|
  {
    if os == [] then 0
    else EdgesSpent(os[..|os| - 1]) + |os[|os| - 1].rows| + os[|os| - 1].walk.edgesWalked
  }

  function NodesWalked(os: seq<Outcome>): nat
    decreases |os|
  {
    if os == [] then 0 else NodesWalked(os[..|os| - 1]) + |os[|os| - 1].walk.nodes|
  }

  lemma {:induction false} SpentAtMost(os: seq<Outcome>, nodes: nat, edges: nat)
    requires forall o :: o in os ==> |o.rows| + o.walk.edgesWalked <= edges && |o.walk.nodes| <= nodes
    ensures EdgesSpent(os) <= Times(|os|, edges) && NodesWalked(os) <= Times(|os|, nodes)
    decreases |os|
  {
    if os != [] {
      var front := os[..|os| - 1];
      assert os == front + [os[|os| - 1]];
      SpentAtMost(front, nodes, edges);
    }
  }

  // ---- A run that says SUCCEEDED left nothing out

  lemma {:induction false} SucceededMeans(os: seq<Outcome>)
    ensures Simulatable(os) == |os| <==> forall o :: o in os ==> o.eligible != []
    decreases |os|
  {
    if os != [] {
      var front := os[..|os| - 1];
      assert os == front + [os[|os| - 1]];
      SucceededMeans(front);
    }
  }

  /** SUCCEEDED is reported exactly when no mutation was cut short and each had an eligible dependent. */
  lemma StatusIsExact(os: seq<Outcome>)
    requires os != []
    ensures StatusOf(os) == Succeeded <==> forall o :: o in os ==> !o.limited && o.eligible != []
  {
    SucceededMeans(os);
  }

  lemma {:induction false} NoneIsSimulatable(os: seq<Outcome>)
    ensures Simulatable(os) == 0 <==> forall o :: o in os ==> o.eligible == []
    decreases |os|
  {
    if os != [] {
      var front := os[..|os| - 1];
      assert os == front + [os[|os| - 1]];
      NoneIsSimulatable(front);
    }
  }

  /** The other two: no mutation had an eligible dependent, or some had and something was cut short or left out. */
  lemma OtherStatusesAreExact(os: seq<Outcome>)
    requires os != []
    ensures StatusOf(os) == NotSimulatable <==> forall o :: o in os ==> o.eligible == []
    ensures StatusOf(os) == Limited
            <==> (exists o :: o in os && o.eligible != []) && exists o :: o in os && (o.limited || o.eligible == [])
  {
    SucceededMeans(os);
    NoneIsSimulatable(os);
  }

  /** The dependents of a mutation that its policy accepts. */
  function Eligible(p: Policy, m: Mutation): set<EntityId> {
    set row | row in m.seeds && Verdict(p, row).None? :: row.entity
  }

  /** Some policy walk from an accepted dependent of the mutation, at depth 1, ends at `x`. */
  ghost predicate Reachable(g: Graph, p: Policy, how: Reading, m: Mutation, x: EntityId) {
    exists d :: Reach(g, p, how, Eligible(p, m), 1, x, d)
  }

  predicate Took(p: Policy, m: Mutation, ordinal: nat, had: Intake, got: Intake, rows: seq<SeedRow>) {
    && (forall f :: f in had.findings ==> f in got.findings)
    && (forall f :: f in got.findings ==>
          f in had.findings || exists r :: r in rows && f == SeedFinding(p, m, ordinal, r))
    && (forall r :: r in had.eligible ==> r in got.eligible)
    && (forall r :: r in got.eligible ==> r in had.eligible || (r in rows && Verdict(p, r).None?))
    && (forall r :: r in rows ==> SeedFinding(p, m, ordinal, r) in got.findings)
    && (forall r :: r in rows && Verdict(p, r).None? ==> r in got.eligible)
  }

  lemma {:induction false} UnlimitedTakesAll(p: Policy, m: Mutation, ordinal: nat, budget: nat, had: Intake,
                                             rows: seq<SeedRow>)
    requires !TakeIn(p, m, ordinal, budget, had, rows).limited
    ensures !had.limited && Took(p, m, ordinal, had, TakeIn(p, m, ordinal, budget, had, rows), rows)
    decreases |rows|
  {
    if rows != [] {
      var row, f := rows[0], SeedFinding(p, m, ordinal, rows[0]);
      assert rows == [row] + rows[1..];
      if Verdict(p, row).Some? {
        UnlimitedTakesAll(p, m, ordinal, budget, had.(findings := had.findings + [f]), rows[1..]);
      } else {
        UnlimitedTakesAll(p, m, ordinal, budget, Intake(had.findings + [f], had.eligible + [row], had.limited),
                          rows[1..]);
      }
    }
  }

  lemma SeedIds(p: Policy, m: Mutation, rows: seq<SeedRow>)
    requires forall r :: r in rows <==> r in m.seeds && Verdict(p, r).None?
    ensures Ids(SeedNodes(p, m, rows)) == Eligible(p, m)
  {
    var nodes := SeedNodes(p, m, rows);
    forall x | x in Eligible(p, m) ensures x in Ids(nodes) {
      var r :| r in m.seeds && Verdict(p, r).None? && r.entity == x;
      var i :| 0 <= i < |rows| && rows[i] == r;
      assert nodes[i] in nodes;
    }
  }

  /** The query's entities are entities of the graph, as its joins give them. */
  ghost predicate SeedsInGraph(g: Graph, m: Mutation) {
    forall r :: r in m.seeds ==> r.entity in g.entities && g.entities[r.entity] == Entity(r.kind, r.key)
  }

  lemma {:induction false} NodeIsFound(ordinal: nat, nodes: seq<Node>, f: Finding)
    ensures f in NodeFindings(ordinal, nodes) <==> exists n :: n in nodes && n.depth > 1 && f == NodeFinding(ordinal, n)
    decreases |nodes|
  {
    if nodes != [] {
      var front, n := nodes[..|nodes| - 1], nodes[|nodes| - 1];
      NodeIsFound(ordinal, front, f);
      assert nodes == front + [n];
    }
  }

  /** A finding that an entity is affected by mutation `i`, directly or through the walk. */
  predicate Affects(f: Finding, i: nat, x: EntityId) {
    f.ordinal == i && f.entity == x && (f.about.SeedDirect? || f.about.Walked?)
  }

  /** One unlimited mutation: its findings are exactly what is reachable from its accepted dependents. */
  lemma OutcomeIsComplete(g: Graph, p: Policy, i: nat, m: Mutation, nodes: nat, edges: nat, x: EntityId)
    requires SeedsInGraph(g, m) && !Simulate(g, p, i, m, nodes, edges).limited
    ensures Reachable(g, p, AsGrouped, m, x)
            <==> exists f :: f in Simulate(g, p, i, m, nodes, edges).findings && Affects(f, i, x)
  {
    var o := Simulate(g, p, i, m, nodes, edges);
    var rows, intake := Take(m.seeds, edges), Taken(p, i, m, nodes, edges);
    UnlimitedTakesAll(p, m, i, nodes, Intake([], [], |m.seeds| > edges), rows);
    assert rows == m.seeds;
    var seeds := SeedNodes(p, m, intake.eligible);
    SeedIds(p, m, intake.eligible);
    var t := Task(g, p, nodes, Left(edges, rows));
    UncappedWalkIsGroupedReach(t, seeds, 1);
    if Reachable(g, p, AsGrouped, m, x) {
      var d :| Reach(g, p, AsGrouped, Eligible(p, m), 1, x, d);
      ReachIsFound(g, p, i, m, o, intake, nodes, x, d);
    }
    if exists f :: f in o.findings && Affects(f, i, x) {
      var f :| f in o.findings && Affects(f, i, x);
      FoundIsReached(g, p, i, m, intake, o.walk, nodes, f);
    }
  }

  lemma ReachIsFound(g: Graph, p: Policy, i: nat, m: Mutation, o: Outcome, intake: Intake, limit: nat,
                    x: EntityId, d: nat)
    requires Reach(g, p, AsGrouped, Eligible(p, m), 1, x, d)
    requires ListsReachable(g, p, AsGrouped, SeedNodes(p, m, intake.eligible), 1, o.walk.nodes)
    requires Ids(SeedNodes(p, m, intake.eligible)) == Eligible(p, m)
    requires Took(p, m, i, Intake([], [], false), intake, m.seeds)
    requires o == Assemble(g, p, i, m, m.seeds, intake, o.walk, limit)
    ensures exists f :: f in o.findings && Affects(f, i, x)
  {
    var n :| n in o.walk.nodes && n.id == x && n.depth <= d;
    assert Reach(g, p, AsGrouped, Eligible(p, m), 1, n.id, n.depth);
    if n.depth > 1 {
      NodeIsFound(i, o.walk.nodes, NodeFinding(i, n));
      assert NodeFinding(i, n) in o.findings;
    } else {
      var r :| r in m.seeds && Verdict(p, r).None? && r.entity == x;
      assert SeedFinding(p, m, i, r) in o.findings && Affects(SeedFinding(p, m, i, r), i, x);
    }
  }

  lemma CapabilitiesAre(g: Graph, p: Policy, ordinal: nat, m: Mutation, nodes: seq<Node>, limit: nat)
    ensures forall f :: f in CapabilityFindings(g, p, ordinal, m, nodes, limit) ==>
              f.about.Capability? && f.ordinal == ordinal
  {}

  /** The three sources of findings that can share a key. */
  lemma FindingComesFrom(g: Graph, p: Policy, i: nat, m: Mutation, rows: seq<SeedRow>, intake: Intake, w: Walk,
                         limit: nat, f: Finding)
    requires f in Assemble(g, p, i, m, rows, intake, w, limit).findings
    ensures f in intake.findings || f in NodeFindings(i, w.nodes) || f in StopFindings(i, w.stopped)
            || f.about.Capability? || f.about.Memory? || f.about.Spread?
  {
    CapabilitiesAre(g, p, i, m, w.nodes, limit);
    assert f in intake.findings || f in NodeFindings(i, w.nodes) || f in StopFindings(i, w.stopped)
           || f in CapabilityFindings(g, p, i, m, w.nodes, limit)
           || f in ClosingFindings(i, m, rows, intake.eligible, w.nodes);
  }

  lemma WalkFindingsAreLong(i: nat, w: Walk, f: Finding)
    requires f in NodeFindings(i, w.nodes) || f in StopFindings(i, w.stopped)
    ensures Long(f.about) && (f.about.Walked? ==> f in NodeFindings(i, w.nodes))
  {
    NodeIsFound(i, w.nodes, f);
  }

  /** What says that an entity is affected directly is a seed finding; that it was walked to, a node's. */
  lemma AffectingComesFrom(g: Graph, p: Policy, i: nat, m: Mutation, rows: seq<SeedRow>, intake: Intake, w: Walk,
                           limit: nat, f: Finding)
    requires f in Assemble(g, p, i, m, rows, intake, w, limit).findings
    requires forall h :: h in intake.findings ==> !Long(h.about)
    ensures f.about.SeedDirect? ==> f in intake.findings
    ensures f.about.Walked? ==> f in NodeFindings(i, w.nodes)
    ensures f.about.Halted? ==> f in StopFindings(i, w.stopped)
  {
    FindingComesFrom(g, p, i, m, rows, intake, w, limit, f);
    if f in NodeFindings(i, w.nodes) || f in StopFindings(i, w.stopped) { WalkFindingsAreLong(i, w, f); }
    NodeIsFound(i, w.nodes, f);
  }

  lemma FoundIsReached(g: Graph, p: Policy, i: nat, m: Mutation, intake: Intake, w: Walk, limit: nat, f: Finding)
    requires f in Assemble(g, p, i, m, m.seeds, intake, w, limit).findings && (f.about.SeedDirect? || f.about.Walked?)
    requires ListsReachable(g, p, AsGrouped, SeedNodes(p, m, intake.eligible), 1, w.nodes)
    requires Ids(SeedNodes(p, m, intake.eligible)) == Eligible(p, m)
    requires Took(p, m, i, Intake([], [], false), intake, m.seeds)
    ensures Reachable(g, p, AsGrouped, m, f.entity)
  {
    TookAreSeeds(p, m, i, intake);
    AffectingComesFrom(g, p, i, m, m.seeds, intake, w, limit, f);
    if f.about.SeedDirect? {
      SeedIsReached(g, p, i, m, intake, f);
    } else {
      NodeIsReachable(g, p, i, m, SeedNodes(p, m, intake.eligible), w.nodes, f);
    }
  }

  lemma TookAreSeeds(p: Policy, m: Mutation, i: nat, intake: Intake)
    requires Took(p, m, i, Intake([], [], false), intake, m.seeds)
    ensures forall h :: h in intake.findings ==> !Long(h.about)
  {}

  lemma NodeIsReachable(g: Graph, p: Policy, i: nat, m: Mutation, seeds: seq<Node>, nodes: seq<Node>, f: Finding)
    requires ListsReachable(g, p, AsGrouped, seeds, 1, nodes) && Ids(seeds) == Eligible(p, m)
    requires f in NodeFindings(i, nodes)
    ensures Reachable(g, p, AsGrouped, m, f.entity)
  {
    NodeIsFound(i, nodes, f);
    var n :| n in nodes && n.depth > 1 && f == NodeFinding(i, n);
    assert Reach(g, p, AsGrouped, Eligible(p, m), 1, n.id, n.depth);
  }

  lemma SeedIsReached(g: Graph, p: Policy, i: nat, m: Mutation, intake: Intake, f: Finding)
    requires Took(p, m, i, Intake([], [], false), intake, m.seeds) && f in intake.findings && f.about.SeedDirect?
    ensures Reachable(g, p, AsGrouped, m, f.entity)
  {
    var r :| r in m.seeds && f == SeedFinding(p, m, i, r);
    assert Reach(g, p, AsGrouped, Eligible(p, m), 1, f.entity, 1);
  }

  lemma {:induction false} ResultsMembers(os: seq<Outcome>, f: Finding)
    ensures f in Results(os) <==> exists i :: 0 <= i < |os| && f in os[i].findings
    decreases |os|
  {
    if os != [] {
      var front, o := os[..|os| - 1], os[|os| - 1];
      ResultsMembers(front, f);
      assert os[|os| - 1] == o;
      if f in Results(front) {
        var i :| 0 <= i < |front| && f in front[i].findings;
        assert os[i] == front[i];
      }
      if exists i :: 0 <= i < |os| && f in os[i].findings {
        var i :| 0 <= i < |os| && f in os[i].findings;
        if i < |front| { assert front[i] == os[i]; }
      }
    }
  }

  lemma OrdinalsMatch(g: Graph, p: Policy, i: nat, m: Mutation, nodes: nat, edges: nat, f: Finding)
    requires f in Simulate(g, p, i, m, nodes, edges).findings
    ensures f.ordinal == i
  {
    var rows, intake := Take(m.seeds, edges), Taken(p, i, m, nodes, edges);
    IntakeOrdinals(p, m, i, nodes, Intake([], [], |m.seeds| > edges), rows);
    var walk := Expanded(Task(g, p, nodes, Left(edges, rows)), SeedNodes(p, m, intake.eligible));
    AssembledOrdinals(g, p, i, m, rows, intake, walk, nodes, f);
  }

  lemma AssembledOrdinals(g: Graph, p: Policy, i: nat, m: Mutation, rows: seq<SeedRow>, intake: Intake, walk: Walk,
                          limit: nat, f: Finding)
    requires forall f :: f in intake.findings ==> f.ordinal == i
    requires f in Assemble(g, p, i, m, rows, intake, walk, limit).findings
    ensures f.ordinal == i
  {
    if f in NodeFindings(i, walk.nodes) {
      NodeIsFound(i, walk.nodes, f);
    } else {
      assert f in intake.findings || f in StopFindings(i, walk.stopped)
             || f in CapabilityFindings(g, p, i, m, walk.nodes, limit)
             || f in ClosingFindings(i, m, rows, intake.eligible, walk.nodes);
    }
  }

  lemma {:induction false} IntakeOrdinals(p: Policy, m: Mutation, ordinal: nat, budget: nat, had: Intake,
                                          rows: seq<SeedRow>)
    requires forall f :: f in had.findings ==> f.ordinal == ordinal && !Long(f.about)
    ensures forall f :: f in TakeIn(p, m, ordinal, budget, had, rows).findings ==>
              f.ordinal == ordinal && !Long(f.about)
    decreases |rows|
  {
    if rows != [] {
      var row, f := rows[0], SeedFinding(p, m, ordinal, rows[0]);
      if Verdict(p, row).Some? {
        IntakeOrdinals(p, m, ordinal, budget, had.(findings := had.findings + [f]), rows[1..]);
      } else if |had.eligible| < budget {
        IntakeOrdinals(p, m, ordinal, budget, Intake(had.findings + [f], had.eligible + [row], had.limited), rows[1..]);
      }
    }
  }

  lemma RunAt(g: Graph, p: Policy, ms: seq<Mutation>, maxNodes: int, maxEdges: int, i: nat)
    requires i < |ms|
    ensures var os := Run(g, p, ms, maxNodes, maxEdges);
            && |os| == |ms| && os[i] in os
            && os[i] == Simulate(g, p, i, ms[i], Share(Effective(maxNodes, p.maxNodes), |ms|),
                                 Share(Effective(maxEdges, p.maxEdges), |ms|))
  {}

  /** The hashed findings of an ordinal are those of the mutation it names. */
  lemma HashedByOrdinal(id: nat -> string, g: Graph, p: Policy, ms: seq<Mutation>, maxNodes: int, maxEdges: int,
                        f: Finding)
    requires ms != []
    ensures var os := Run(g, p, ms, maxNodes, maxEdges);
            f in Hashed(id, Results(os)) <==> f.ordinal < |ms| && f in os[f.ordinal].findings
  {
    var os := Run(g, p, ms, maxNodes, maxEdges);
    SortKeepsMembers(Results(os), ByResult(id));
    ResultsMembers(os, f);
    if f in Results(os) {
      var j :| 0 <= j < |os| && f in os[j].findings;
      RunAt(g, p, ms, maxNodes, maxEdges, j);
      OrdinalsMatch(g, p, j, ms[j], Share(Effective(maxNodes, p.maxNodes), |ms|),
                    Share(Effective(maxEdges, p.maxEdges), |ms|), f);
    }
  }

  /**
   * When a run reports SUCCEEDED the findings it hashes say that a mutation affects an entity exactly when the
   * policy, as the engine groups it, reaches that entity from a dependent the policy accepts.
   */
  lemma SucceededIsComplete(id: nat -> string, g: Graph, p: Policy, ms: seq<Mutation>, maxNodes: int, maxEdges: int,
                            i: nat, x: EntityId)
    requires i < |ms| && SeedsInGraph(g, ms[i])
    requires StatusOf(Run(g, p, ms, maxNodes, maxEdges)) == Succeeded
    ensures Reachable(g, p, AsGrouped, ms[i], x)
            <==> exists f :: f in Hashed(id, Results(Run(g, p, ms, maxNodes, maxEdges))) && Affects(f, i, x)
  {
    var os := Run(g, p, ms, maxNodes, maxEdges);
    StatusIsExact(os);
    RunAt(g, p, ms, maxNodes, maxEdges, i);
    OutcomeIsComplete(g, p, i, ms[i], Share(Effective(maxNodes, p.maxNodes), |ms|),
                      Share(Effective(maxEdges, p.maxEdges), |ms|), x);
    forall f | Affects(f, i, x) ensures f in Hashed(id, Results(os)) <==> f in os[i].findings {
      HashedByOrdinal(id, g, p, ms, maxNodes, maxEdges, f);
    }
  }

  /** And under a policy coherent from depth 1, exactly when the policy as written reaches it. */
  lemma SucceededMeetsPolicy(id: nat -> string, g: Graph, p: Policy, ms: seq<Mutation>, maxNodes: int, maxEdges: int,
                             i: nat, x: EntityId)
    requires i < |ms| && SeedsInGraph(g, ms[i]) && Coherent(p, 1)
    requires StatusOf(Run(g, p, ms, maxNodes, maxEdges)) == Succeeded
    ensures Reachable(g, p, AsWritten, ms[i], x)
            <==> exists f :: f in Hashed(id, Results(Run(g, p, ms, maxNodes, maxEdges))) && Affects(f, i, x)
  {
    SucceededIsComplete(id, g, p, ms, maxNodes, maxEdges, i, x);
    if Reachable(g, p, AsWritten, ms[i], x) { CoherentlyReachable(g, p, AsWritten, AsGrouped, ms[i], x); }
    if Reachable(g, p, AsGrouped, ms[i], x) { CoherentlyReachable(g, p, AsGrouped, AsWritten, ms[i], x); }
  }

  lemma CoherentlyReachable(g: Graph, p: Policy, how: Reading, other: Reading, m: Mutation, x: EntityId)
    requires Coherent(p, 1) && Reachable(g, p, how, m, x)
    ensures Reachable(g, p, other, m, x)
  {
    var d :| Reach(g, p, how, Eligible(p, m), 1, x, d);
    CoherentReach(g, p, how, other, Eligible(p, m), 1, x, d);
  }
}
